/**
 * When the projectors' results are the projection of the whole log: that depends on when a mandate was registered,
 * for events that name an unknown mandate are stamped and not looked at again.
 */
module Registration {
  import opened Common
  import opened States
  import opened Projection
  import opened Tables
  import opened Projector
  import opened Convergence

  lemma {:induction false} RunSplit(w: World, a: seq<Step>, b: seq<Step>)
    ensures Run(w, a + b) == Run(Run(w, a), b)
    decreases a
  {
    if a == [] {
      assert a + b == b;
    } else {
      assert (a + b)[1..] == a[1..] + b;
      RunSplit(Next(w, a[0]), a[1..], b);
    }
  }

  // ---------------------------------------------------------------- claims

  /** Events under a claim are unprocessed, and under one claim each. */
  ghost predicate ClaimsOpen(w: World) {
    && (forall x, i :: x in w.txns && i in w.txns[x].claimed ==> i !in w.processed)
    && (forall x, y :: x in w.txns && y in w.txns && x != y ==> w.txns[x].claimed !! w.txns[y].claimed)
  }

  lemma StepKeepsClaims(w: World, s: Step)
    requires ClaimsOpen(w)
    ensures ClaimsOpen(Next(w, s))
  {}

  lemma {:induction false} ClaimsAlways(w: World, steps: seq<Step>)
    requires ClaimsOpen(w)
    ensures ClaimsOpen(Run(w, steps))
    decreases steps
  {
    if steps != [] {
      StepKeepsClaims(w, steps[0]);
      ClaimsAlways(Next(w, steps[0]), steps[1..]);
    }
  }

  predicate About(log: seq<Event>, i: nat, m: MandateId) { i < |log| && log[i].mandate == Some(m) }

  // ---------------------------------------------------------------- registered in time

  /** A transaction has claimed the event and is already past the mandate. */
  ghost predicate Passed(w: World, i: nat, m: MandateId) {
    exists x :: x in w.txns && i in w.txns[x].claimed && m !in w.txns[x].todo
  }

  ghost predicate HasReadOf(t: Txn, m: MandateId) {
    exists r :: r in t.done && r.mandate == m
  }

  /** Of a registered mandate's events, those outside `early` are stamped only with a projection of it. */
  ghost predicate Heard(w: World, m: MandateId, early: set<nat>) {
    && m in w.db.mandates
    && (forall i :: i in w.processed && About(w.log, i, m) && i !in early ==> m in w.seen)
    && (forall x, i :: x in w.txns && i in w.txns[x].claimed && About(w.log, i, m) && i !in early ==>
          m in w.txns[x].todo || HasReadOf(w.txns[x], m))
  }

  /** What a commit does: the mandates it has read are seen from then on, the others stay as they were. */
  ghost predicate Committed(w: World, v: World, x: WorkerId) {
    && x in w.txns && v.log == w.log && v.txns == w.txns - {x} && v.processed == w.processed + w.txns[x].claimed
    && v.db.mandates.Keys == w.db.mandates.Keys
    && (forall k :: k in w.db.mandates && !HasReadOf(w.txns[x], k) ==> v.db.mandates[k] == w.db.mandates[k])
    && (forall k :: k in v.seen <==> k in w.seen || HasReadOf(w.txns[x], k))
  }

  lemma SeenAfterReads(seen: map<MandateId, nat>, t: Txn, k: MandateId)
    requires forall i, j :: 0 <= i < j < |t.done| ==> t.done[i].mandate != t.done[j].mandate
    ensures k in SeenAfter(seen, t.done) <==> k in seen || HasReadOf(t, k)
  {
    SeenAfterFacts(seen, t.done);
    if !HasReadOf(t, k) { assert forall r :: r in t.done ==> r.mandate != k; }
  }

  lemma CommitHands(w: World, x: WorkerId)
    requires CanCommit(w, x)
    ensures var v := Next(w, Commit(x));
            Hands(w, v, x) && v.processed == w.processed + w.txns[x].claimed && ApplyAll(w.db, w.log, w.txns[x].done) == Some(v.db)
  {}

  lemma CommitFrame(w: World, x: WorkerId)
    requires Inv(w) && CanCommit(w, x)
    ensures Committed(w, Next(w, Commit(x)), x)
  {
    CommitHands(w, x);
    FrameOf(w, Next(w, Commit(x)), x);
  }

  lemma FrameOf(w: World, v: World, x: WorkerId)
    requires Stored(w.db, w.log, w.seen) && Hands(w, v, x) && TxnOk(w, x)
    requires v.processed == w.processed + w.txns[x].claimed && ApplyAll(w.db, w.log, w.txns[x].done) == Some(v.db)
    ensures Committed(w, v, x)
  {
    CommitStores(w.db, w.log, w.seen, w.txns[x].done, v.db);
    CommitLooks(w, v, x);
  }

  lemma CommitLooks(w: World, v: World, x: WorkerId)
    requires Hands(w, v, x) && v.processed == w.processed + w.txns[x].claimed && v.db.mandates.Keys == w.db.mandates.Keys
    requires forall i, j :: 0 <= i < j < |w.txns[x].done| ==> w.txns[x].done[i].mandate != w.txns[x].done[j].mandate
    requires forall k :: k in w.db.mandates && (forall d :: d in w.txns[x].done ==> d.mandate != k) ==>
               v.db.mandates[k] == w.db.mandates[k]
    ensures Committed(w, v, x)
  {
    var t := w.txns[x];
    forall k ensures k in v.seen <==> k in w.seen || HasReadOf(t, k) { SeenAfterReads(w.seen, t, k); }
    forall k | k in w.db.mandates && !HasReadOf(t, k) ensures v.db.mandates[k] == w.db.mandates[k] {
      assert forall r :: r in t.done ==> r.mandate != k;
    }
  }

  lemma CommitHears(w: World, v: World, x: WorkerId, m: MandateId, early: set<nat>)
    requires Heard(w, m, early) && Committed(w, v, x) && w.txns[x].todo == []
    ensures Heard(v, m, early)
  {}

  lemma TakeHears(w: World, x: WorkerId, m: MandateId, early: set<nat>)
    requires Heard(w, m, early) && Enabled(w, Take(x))
    ensures Heard(Next(w, Take(x)), m, early)
  {
    var t, u := w.txns[x], Taken(w, w.txns[x]);
    assert t.todo == [t.todo[0]] + t.todo[1..];
    assert forall r :: r in t.done ==> r in u.done;
    if t.todo[0] == m { assert Read(m, |w.log|) in u.done; }
    forall i | i in u.claimed && About(w.log, i, m) && i !in early ensures m in u.todo || HasReadOf(u, m) {
      if m !in t.todo {
        var r :| r in t.done && r.mandate == m;
        assert r in u.done;
      }
    }
  }

  lemma BeginHears(w: World, x: WorkerId, ids: set<nat>, todo: seq<MandateId>, m: MandateId, early: set<nat>)
    requires Heard(w, m, early) && Enabled(w, Begin(x, ids, todo))
    ensures Heard(Next(w, Begin(x, ids, todo)), m, early)
  {
    forall i: nat | i in ids && About(w.log, i, m) ensures m in todo { assert NamedBy(w.log, ids, m); }
  }

  lemma StepHears(w: World, s: Step, m: MandateId, early: set<nat>)
    requires Inv(w) && Heard(w, m, early)
    ensures Heard(Next(w, s), m, early)
  {
    if Enabled(w, s) {
      match s
      case Take(x) => TakeHears(w, x, m, early);
      case Commit(x) => if CanCommit(w, x) { CommitFrame(w, x); CommitHears(w, Next(w, s), x, m, early); }
      case Begin(x, ids, todo) => BeginHears(w, x, ids, todo, m, early);
      case Arrive(e) => ArriveHears(w, e, m, early);
      case _ =>
    }
  }

  lemma ArriveHears(w: World, e: Event, m: MandateId, early: set<nat>)
    requires Inv(w) && Heard(w, m, early)
    ensures Heard(w.(log := w.log + [e]), m, early)
  {
    forall i, x | x in w.txns && i in w.txns[x].claimed ensures i < |w.log| { assert TxnOk(w, x); }
  }

  lemma {:induction false} HeardAlways(w: World, steps: seq<Step>, m: MandateId, early: set<nat>)
    requires Inv(w) && Heard(w, m, early)
    ensures Heard(Run(w, steps), m, early)
    decreases steps
  {
    if steps != [] {
      StepHears(w, steps[0], m, early);
      StepKeepsInv(w, steps[0]);
      HeardAlways(Next(w, steps[0]), steps[1..], m, early);
    }
  }

  /** The events naming a mandate that the projectors have dealt with, or are past, before it is registered. */
  ghost function Early(r: World, m: MandateId): set<nat> {
    set i | 0 <= i < |r.log| && About(r.log, i, m) && (i in r.processed || Passed(r, i, m))
  }

  /** Some event naming the mandate still has to be dealt with when it is registered, or comes later. */
  ghost predicate InTime(r: World, m: MandateId, log: seq<Event>) {
    exists i: nat :: About(log, i, m) && i !in Early(r, m)
  }

  lemma HeardFromRegistration(r: World, m: MandateId, s: MandateState)
    requires Inv(r) && m !in r.db.mandates
    ensures Heard(Next(r, AddMandate(m, s)), m, Early(r, m))
  {
    forall x, i | x in r.txns && i in r.txns[x].claimed && About(r.log, i, m) && i !in Early(r, m) ensures m in r.txns[x].todo {
      assert Passed(r, i, m) ==> i in Early(r, m);
    }
  }

  lemma SeenWhenInTime(before: seq<Step>, s: MandateState, after: seq<Step>, m: MandateId)
    requires m !in Run(START, before).db.mandates
    requires Drained(Run(Next(Run(START, before), AddMandate(m, s)), after), m)
    requires InTime(Run(START, before), m, Run(Next(Run(START, before), AddMandate(m, s)), after).log)
    ensures m in Run(Next(Run(START, before), AddMandate(m, s)), after).seen
  {
    var r := Run(START, before);
    InvAlways(START, before);
    HeardFromRegistration(r, m, s);
    StepKeepsInv(r, AddMandate(m, s));
    HeardAlways(Next(r, AddMandate(m, s)), after, m, Early(r, m));
  }

  // ---------------------------------------------------------------- registered too late

  /** Nothing has projected the mandate, and no event is left that could make anything project it. */
  ghost predicate Unheard(w: World, m: MandateId, s: MandateState) {
    && m in w.db.mandates && w.db.mandates[m] == s && m !in w.seen
    && (forall x :: x in w.txns ==> !HasReadOf(w.txns[x], m) && m !in w.txns[x].todo)
    && forall i: nat :: About(w.log, i, m) ==> i in w.processed
  }

  lemma TakeKeepsUnheard(w: World, x: WorkerId, m: MandateId, s: MandateState)
    requires Unheard(w, m, s) && Enabled(w, Take(x))
    ensures Unheard(Next(w, Take(x)), m, s)
  {
    var t, u := w.txns[x], Taken(w, w.txns[x]);
    assert t.todo[0] in t.todo;
    assert forall q :: q in u.done ==> q in t.done || q.mandate == t.todo[0];
    assert forall k :: k in u.todo ==> k in t.todo;
  }

  lemma CommitKeepsUnheard(w: World, v: World, x: WorkerId, m: MandateId, s: MandateState)
    requires Unheard(w, m, s) && Committed(w, v, x)
    ensures Unheard(v, m, s)
  {}

  lemma StepKeepsUnheard(w: World, t: Step, m: MandateId, s: MandateState)
    requires Inv(w) && Unheard(w, m, s) && (t.Arrive? && Enabled(w, t) ==> t.event.mandate != Some(m))
    ensures Unheard(Next(w, t), m, s)
  {
    if Enabled(w, t) {
      match t
      case Begin(x, ids, todo) => assert m in todo ==> NamedBy(w.log, ids, m);
      case Take(x) => TakeKeepsUnheard(w, x, m, s);
      case Commit(x) => if CanCommit(w, x) { CommitFrame(w, x); CommitKeepsUnheard(w, Next(w, t), x, m, s); }
      case _ =>
    }
  }

  lemma {:induction false} LogGrows(w: World, steps: seq<Step>)
    ensures w.log <= Run(w, steps).log
    decreases steps
  {
    if steps != [] { LogGrows(Next(w, steps[0]), steps[1..]); }
  }

  lemma {:induction false} UnheardAlways(w: World, steps: seq<Step>, m: MandateId, s: MandateState)
    requires Inv(w) && Unheard(w, m, s) && forall i: nat :: About(Run(w, steps).log, i, m) ==> i < |w.log|
    ensures Unheard(Run(w, steps), m, s)
    decreases steps
  {
    if steps != [] {
      var v := Next(w, steps[0]);
      LogGrows(v, steps[1..]);
      if steps[0].Arrive? && Enabled(w, steps[0]) {
        assert Run(w, steps).log[|w.log|] == steps[0].event;
        assert !About(Run(w, steps).log, |w.log|, m);
      }
      StepKeepsInv(w, steps[0]);
      StepKeepsUnheard(w, steps[0], m, s);
      forall i: nat | About(Run(v, steps[1..]).log, i, m) ensures i < |v.log| {
        assert About(Run(w, steps).log, i, m);
      }
      UnheardAlways(v, steps[1..], m, s);
    }
  }

  /** No transaction in flight has claimed an event that names the mandate and is past the mandate. */
  ghost predicate Quiet(r: World, m: MandateId) {
    forall i: nat :: About(r.log, i, m) ==> !Passed(r, i, m)
  }

  lemma UnheardWhenLate(r: World, m: MandateId, s: MandateState)
    requires Inv(r) && ClaimsOpen(r) && m !in r.db.mandates && forall i: nat :: About(r.log, i, m) ==> i in r.processed
    ensures Unheard(Next(r, AddMandate(m, s)), m, s)
  {
    NobodyReads(r, m);
    forall x | x in r.txns ensures m !in r.txns[x].todo {
      assert TxnOk(r, x);
      assert forall i: nat :: i in r.txns[x].claimed ==> !About(r.log, i, m);
      assert !NamedBy(r.log, r.txns[x].claimed, m);
    }
  }

  lemma UnseenWhenLate(before: seq<Step>, s: MandateState, after: seq<Step>, m: MandateId)
    requires var r := Run(START, before); m !in r.db.mandates && Quiet(r, m)
    requires !InTime(Run(START, before), m, Run(Next(Run(START, before), AddMandate(m, s)), after).log)
    ensures Unheard(Run(Next(Run(START, before), AddMandate(m, s)), after), m, s)
  {
    var r := Run(START, before);
    var v := Next(r, AddMandate(m, s));
    var w := Run(v, after);
    InvAlways(START, before);
    ClaimsAlways(START, before);
    LogGrows(v, after);
    forall i: nat | About(w.log, i, m) ensures i < |r.log| && i in r.processed {
      assert i in Early(r, m);
      assert About(r.log, i, m);
    }
    assert forall i: nat :: About(r.log, i, m) ==> About(w.log, i, m);
    UnheardWhenLate(r, m, s);
    StepKeepsInv(r, AddMandate(m, s));
    UnheardAlways(v, after, m, s);
  }

  lemma NobodyReads(r: World, m: MandateId)
    requires Inv(r) && m !in r.db.mandates
    ensures m !in r.seen && forall x :: x in r.txns ==> !HasReadOf(r.txns[x], m)
  {
    assert m in r.seen ==> MandateStored(r.db, r.log, r.seen, m);
    forall x | x in r.txns ensures !HasReadOf(r.txns[x], m) { assert TxnOk(r, x); }
  }

  // ---------------------------------------------------------------- the two convergence theorems

  /**
   * Refinement, with any number of projectors and events still arriving: once nothing naming a mandate waits to
   * be processed, its stored state is the projection of the whole log if an event naming it was still to be dealt
   * with when it was registered; and, no transaction being past it then, only if, but for a mandate registered
   * in the very state its events had already amounted to.
   */
  lemma MandateConverged(before: seq<Step>, s: MandateState, after: seq<Step>, m: MandateId)
    requires m !in Run(START, before).db.mandates
    requires Drained(Run(Next(Run(START, before), AddMandate(m, s)), after), m)
    ensures var r := Run(START, before);
            var w := Run(Next(r, AddMandate(m, s)), after);
            && m in w.db.mandates
            && (InTime(r, m, w.log) ==> w.db.mandates[m] == MandateOf(OfMandate(w.log, m)))
            && (Quiet(r, m) ==>
                  (w.db.mandates[m] == MandateOf(OfMandate(w.log, m)) <==>
                    InTime(r, m, w.log) || s == MandateOf(OfMandate(r.log, m))))
  {
    var r := Run(START, before);
    var v := Next(r, AddMandate(m, s));
    var w := Run(v, after);
    RunSplit(START, before, [AddMandate(m, s)] + after);
    assert ([AddMandate(m, s)] + after)[1..] == after;
    InvAlways(START, before + ([AddMandate(m, s)] + after));
    Registered(v, after, m);
    if InTime(r, m, w.log) {
      SeenWhenInTime(before, s, after, m);
      DrainedIsSeen(w, m);
      assert MandateStored(w.db, w.log, w.seen, m);
    } else if Quiet(r, m) {
      UnseenWhenLate(before, s, after, m);
      SameLog(before, s, after, m);
    }
  }

  lemma {:induction false} ApplyAllKeepsMandates(db: Db, log: seq<Event>, done: seq<Read>)
    requires (forall r :: r in done ==> r.upTo <= |log|) && ApplyAll(db, log, done).Some?
    ensures db.mandates.Keys <= ApplyAll(db, log, done).value.mandates.Keys
    decreases |done|
  {
    if done != [] {
      var first := ApplyMandate(db, done[0].mandate, OfMandate(log[..done[0].upTo], done[0].mandate)).value;
      ApplyAllKeepsMandates(first, log, done[1..]);
    }
  }

  lemma {:induction false} Registered(w: World, steps: seq<Step>, m: MandateId)
    requires m in w.db.mandates
    ensures m in Run(w, steps).db.mandates
    decreases steps
  {
    if steps != [] {
      if steps[0].Commit? && CanCommit(w, steps[0].worker) {
        ApplyAllKeepsMandates(w.db, w.log, w.txns[steps[0].worker].done);
      }
      Registered(Next(w, steps[0]), steps[1..], m);
    }
  }

  lemma SameLog(before: seq<Step>, s: MandateState, after: seq<Step>, m: MandateId)
    requires var r := Run(START, before); !InTime(r, m, Run(Next(r, AddMandate(m, s)), after).log)
    ensures var r := Run(START, before);
            OfMandate(Run(Next(r, AddMandate(m, s)), after).log, m) == OfMandate(r.log, m)
  {
    var r := Run(START, before);
    var v := Next(r, AddMandate(m, s));
    var w := Run(v, after);
    LogGrows(v, after);
    forall i | |r.log| <= i < |w.log| ensures w.log[i].mandate != Some(m) {
      assert About(w.log, i, m) ==> i in Early(r, m);
    }
    NothingAfter(w.log, m, |r.log|);
    assert w.log[..|r.log|] == r.log;
  }

  /**
   * And its cycles: with exclusive references and a registration in time, the stored rows of a drained mandate are
   * exactly the dated cycles of its log, each with the state, last failure and recovered amount of all its events.
   */
  lemma CyclesConverged(before: seq<Step>, s: MandateState, after: seq<Step>, m: MandateId, c: CycleId)
    requires m !in Run(START, before).db.mandates
    requires var w := Run(Next(Run(START, before), AddMandate(m, s)), after);
             Drained(w, m) && RefsOwned(w.log) && InTime(Run(START, before), m, w.log)
    ensures var w := Run(Next(Run(START, before), AddMandate(m, s)), after);
            var mine := OfMandate(w.log, m);
            && (c in CyclesOf(w.db.cycles, m) <==> Names(mine, c) && Dated(ForCycle(mine, c)))
            && (c in CyclesOf(w.db.cycles, m) ==> Matches(w.db.cycles[c], ProjectCycle(ForCycle(mine, c))))
  {
    SeenWhenInTime(before, s, after, m);
    RunSplit(START, before, [AddMandate(m, s)] + after);
    assert ([AddMandate(m, s)] + after)[1..] == after;
    SeenCyclesConverged(before + ([AddMandate(m, s)] + after), m, c);
  }

  /** In particular a mandate registered before the first event that names it. */
  lemma RegisteredFirst(before: seq<Step>, m: MandateId, log: seq<Event>, i: nat)
    requires OfMandate(Run(START, before).log, m) == [] && About(log, i, m)
    ensures InTime(Run(START, before), m, log)
  {
    var r := Run(START, before);
    forall j: nat ensures !About(r.log, j, m) { NothingNames(r.log, m, j); }
  }

  lemma NothingNames(log: seq<Event>, m: MandateId, j: nat)
    requires OfMandate(log, m) == []
    ensures !About(log, j, m)
  {
    OfMandateFacts(log, m);
    assert j < |log| ==> log[j] in log;
    assert j < |log| ==> log[j] !in OfMandate(log, m);
  }

  // ---------------------------------------------------------------- a registration that comes too late

  function LateRun(e: Event, m: MandateId): seq<Step> {
    [Arrive(e), Begin(1, {0}, [m]), Take(1), Commit(1), AddMandate(m, Created)]
  }

  lemma UpToCommit(e: Event, m: MandateId)
    requires e.mandate == Some(m)
    ensures var w := Run(START, [Arrive(e), Begin(1, {0}, [m]), Take(1), Commit(1)]);
            && w.log == [e] && w.processed == {0} && w.db.mandates == map[] && w.txns == map[]
  {
    var w0 := START;
    var w1 := Next(w0, Arrive(e));
    assert w1.log == [e];
    var w2 := Next(w1, Begin(1, {0}, [m]));
    assert NamedBy(w1.log, {0}, m);
    assert forall k :: NamedBy(w1.log, {0}, k) ==> k == m;
    assert Enabled(w1, Begin(1, {0}, [m]));
    assert w2.txns == map[1 := Txn({0}, [m], [])];
    var w3 := Next(w2, Take(1));
    assert [m][1..] == [];
    assert Taken(w2, w2.txns[1]) == Txn({0}, [], []);
    assert w3.txns == map[1 := Txn({0}, [], [])];
    var w4 := Next(w3, Commit(1));
    assert w4.processed == {0};
    var a, b, c, d: Step := Arrive(e), Begin(1, {0}, [m]), Take(1), Commit(1);
    assert [a, b, c, d][1..] == [b, c, d] && [b, c, d][1..] == [c, d] && [c, d][1..] == [d] && [d][1..] == [];
    assert Run(w0, [a, b, c, d]) == Run(w1, [b, c, d]);
    assert Run(w1, [b, c, d]) == Run(w2, [c, d]);
    assert Run(w2, [c, d]) == Run(w3, [d]);
    assert Run(w3, [d]) == Run(w4, []);
  }

  /**
   * The failing run: an event arrives and is stamped while its mandate is unknown; the mandate is then registered
   * as created and is drained at once, and its stored state is not the active one its log amounts to.
   */
  lemma LateRegistrationDiverges(e: Event, m: MandateId)
    requires e.mandate == Some(m) && e.kind.SubscriptionAuthenticated?
    ensures var w := Run(START, LateRun(e, m));
            && Drained(w, m) && m in w.db.mandates && w.db.mandates[m] == Created
            && MandateOf(OfMandate(w.log, m)) == Active
  {
    var before, last := [Arrive(e), Begin(1, {0}, [m]), Take(1), Commit(1)], AddMandate(m, Created);
    UpToCommit(e, m);
    assert LateRun(e, m) == before + [last];
    RunSplit(START, before, [last]);
    var r := Run(START, before);
    assert Run(r, [last]) == Run(Next(r, last), []);
    assert [e][..0] == [];
    assert OfMandate([e], m) == [e];
    assert Sorted([e]) == [e];
    assert FoldMandate(Created, [e]) == FoldMandate(Active, [e][1..]);
  }
}
