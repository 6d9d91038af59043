/**
 * Any number of projector workers over one growing log (project_tenant). A worker claims events,
 * locks each mandate they name, reads that mandate's log under the lock, and commits everything it
 * wrote together with the processed stamps; or it dies, and nothing happened.
 */
module Convergence {
  import opened Common
  import opened States
  import opened Projection
  import opened Tables
  import opened Projector
  import Text

  type WorkerId = nat

  /** A mandate this transaction holds locked, and how much of the log it read under the lock. */
  datatype Read = Read(mandate: MandateId, upTo: nat)

  datatype Txn = Txn(claimed: set<nat>, todo: seq<MandateId>, done: seq<Read>)

  datatype World = World(
    db: Db,
    log: seq<Event>,
    processed: set<nat>,
    txns: map<WorkerId, Txn>,
    seen: map<MandateId, nat>,           // the log its last committed projection read
    born: map<MandateId, MandateState>)  // the state each mandate was created with

  const START: World := World(Db(map[], map[], map[], [], [], [], map[]), [], {}, map[], map[], map[])

  datatype Step =
    | Arrive(event: Event)
    | AddMandate(mandate: MandateId, state: MandateState)
    | Execute(db: Db)
    | Begin(worker: WorkerId, claimed: set<nat>, todo: seq<MandateId>)
    | Take(worker: WorkerId)
    | Commit(worker: WorkerId)
    | Abort(worker: WorkerId)

  ghost predicate NamedBy(log: seq<Event>, ids: set<nat>, m: MandateId) {
    exists i :: i in ids && i < |log| && log[i].mandate == Some(m)
  }

  /** The executor may change how much budget is used, the notice instant and its own tables. */
  ghost predicate ExecutorOnly(a: Db, b: Db) {
    && a.mandates == b.mandates && a.cycles.Keys == b.cycles.Keys
    && forall c :: c in a.cycles ==>
         b.cycles[c] == a.cycles[c].(used := b.cycles[c].used, pdnSentAt := b.cycles[c].pdnSentAt)
  }

  ghost predicate Locked(w: World, m: MandateId) {
    exists x, r :: x in w.txns && r in w.txns[x].done && r.mandate == m
  }

  ghost predicate Enabled(w: World, s: Step) {
    match s
    case Arrive(e) => forall f :: f in w.log ==> f.id != e.id
    case AddMandate(m, _) => m !in w.db.mandates
    case Execute(db) => ExecutorOnly(w.db, db)
    case Begin(x, ids, todo) =>
      && x !in w.txns
      && (forall i :: i in ids ==> i < |w.log| && i !in w.processed)
      && (forall y :: y in w.txns ==> w.txns[y].claimed !! ids)
      && Text.Ascending(todo)
      && forall m :: m in todo <==> NamedBy(w.log, ids, m)
    case Take(x) =>
      x in w.txns && w.txns[x].todo != []
      && (w.txns[x].todo[0] in w.db.mandates ==> !Locked(w, w.txns[x].todo[0]))
    case Commit(x) =>
      x in w.txns && w.txns[x].todo == [] && forall r :: r in w.txns[x].done ==> r.upTo <= |w.log|
    case Abort(x) => x in w.txns
  }

  ghost function ApplyAll(db: Db, log: seq<Event>, done: seq<Read>): Option<Db>
    requires forall r :: r in done ==> r.upTo <= |log|
    decreases |done|
  {
    if done == [] then Some(db)
    else
      var first := ApplyMandate(db, done[0].mandate, OfMandate(log[..done[0].upTo], done[0].mandate));
      if first.None? then None else ApplyAll(first.value, log, done[1..])
  }

  function SeenAfter(seen: map<MandateId, nat>, done: seq<Read>): map<MandateId, nat>
    decreases |done|
  {
    if done == [] then seen else SeenAfter(seen[done[0].mandate := done[0].upTo], done[1..])
  }

  /** An event for a mandate nobody has registered is skipped here and still stamped at commit. */
  function Taken(w: World, t: Txn): Txn
    requires t.todo != []
  {
    var m := t.todo[0];
    t.(todo := t.todo[1..], done := if m in w.db.mandates then t.done + [Read(m, |w.log|)] else t.done)
  }

  ghost function Next(w: World, s: Step): World {
    if !Enabled(w, s) then w
    else match s
      case Arrive(e) => w.(log := w.log + [e])
      case AddMandate(m, state) =>
        w.(db := w.db.(mandates := w.db.mandates[m := state]), born := w.born[m := state])
      case Execute(db) => w.(db := db)
      case Begin(x, ids, todo) => w.(txns := w.txns[x := Txn(ids, todo, [])])
      case Take(x) =>
        var t := w.txns[x];
        w.(txns := w.txns[x := Taken(w, t)])
      case Commit(x) =>
        var t := w.txns[x];
        var applied := ApplyAll(w.db, w.log, t.done);
        if applied.None? then w.(txns := w.txns - {x})
        else w.(db := applied.value, processed := w.processed + t.claimed, txns := w.txns - {x},
                seen := SeenAfter(w.seen, t.done))
      case Abort(x) => w.(txns := w.txns - {x})
  }

  ghost function Run(w: World, steps: seq<Step>): World
    decreases steps
  {
    if steps == [] then w else Run(Next(w, steps[0]), steps[1..])
  }

  // ---------------------------------------------------------------- what is stored

  ghost function EventsSeen(log: seq<Event>, seen: map<MandateId, nat>, m: MandateId): seq<Event>
    requires m in seen && seen[m] <= |log|
  {
    OfMandate(log[..seen[m]], m)
  }

  ghost predicate MandateStored(db: Db, log: seq<Event>, seen: map<MandateId, nat>, m: MandateId) {
    && m in seen && m in db.mandates && seen[m] <= |log|
    && EventsSeen(log, seen, m) != [] && db.mandates[m] == MandateOf(EventsSeen(log, seen, m))
  }

  ghost predicate CycleStored(db: Db, log: seq<Event>, seen: map<MandateId, nat>, c: CycleId)
    requires c in db.cycles
  {
    var m := db.cycles[c].mandate;
    && m in seen && seen[m] <= |log|
    && (var mine := EventsSeen(log, seen, m);
        && Names(mine, c) && Dated(ForCycle(mine, c))
        && (RefsOwned(log) ==> Matches(db.cycles[c], ProjectCycle(ForCycle(mine, c)))))
  }

  ghost predicate DatedCyclesPresent(db: Db, log: seq<Event>, seen: map<MandateId, nat>, m: MandateId)
    requires m in seen && seen[m] <= |log|
  {
    var mine := EventsSeen(log, seen, m);
    forall c :: Names(mine, c) && Dated(ForCycle(mine, c)) ==> c in db.cycles && db.cycles[c].mandate == m
  }

  ghost predicate Stored(db: Db, log: seq<Event>, seen: map<MandateId, nat>) {
    && (forall m :: m in seen ==> MandateStored(db, log, seen, m))
    && (forall c :: c in db.cycles ==> CycleStored(db, log, seen, c))
    && (RefsOwned(log) ==> forall m :: m in seen ==> DatedCyclesPresent(db, log, seen, m))
    && (forall m :: Dense(db.cycles, m))
  }

  lemma {:induction false} OfMandatePrefix(log: seq<Event>, m: MandateId, a: nat, b: nat)
    requires a <= b <= |log|
    ensures forall e :: e in OfMandate(log[..a], m) ==> e in OfMandate(log[..b], m)
  {
    OfMandateFacts(log[..a], m);
    OfMandateFacts(log[..b], m);
    assert log[..a] == log[..b][..a];
  }

  lemma NamesMonotone(a: seq<Event>, b: seq<Event>, c: CycleId)
    requires forall e :: e in a ==> e in b
    requires Names(a, c)
    ensures Names(b, c)
    ensures Dated(ForCycle(a, c)) ==> Dated(ForCycle(b, c))
  {
    ForCycleFacts(a, c);
    ForCycleFacts(b, c);
    if Dated(ForCycle(a, c)) {
      var e :| e in ForCycle(a, c) && e.nextBilling.Some?;
      assert e in ForCycle(b, c);
    }
  }

  /** Two mandates that both name a cycle are one, when references are exclusive. */
  lemma OneOwner(log: seq<Event>, a: nat, m: MandateId, b: nat, k: MandateId, c: CycleId)
    requires RefsOwned(log) && a <= |log| && b <= |log|
    requires Names(OfMandate(log[..a], m), c) && Names(OfMandate(log[..b], k), c)
    ensures m == k
  {
    OfMandateFacts(log[..a], m);
    OfMandateFacts(log[..b], k);
    var e :| e in OfMandate(log[..a], m) && e.cycleRef == Some(c);
    var f :| f in OfMandate(log[..b], k) && f.cycleRef == Some(c);
    assert e in log && f in log && SameRef(e, f);
  }

  lemma ProjectionStoresCycle(db: Db, log: seq<Event>, seen: map<MandateId, nat>, m: MandateId, n: nat, r: Db, c: CycleId)
    requires Stored(db, log, seen) && n <= |log| && (m in seen ==> seen[m] <= n)
    requires OfMandate(log[..n], m) != [] && ApplyMandate(db, m, OfMandate(log[..n], m)) == Some(r)
    requires c in r.cycles
    ensures CycleStored(r, log, seen[m := n], c)
  {
    var events := OfMandate(log[..n], m);
    ApplyMandateFacts(db, m, events);
    if c in db.cycles {
      var k := db.cycles[c].mandate;
      assert CycleStored(db, log, seen, c);
      if k == m {
        OfMandatePrefix(log, m, seen[m], n);
        NamesMonotone(EventsSeen(log, seen, m), events, c);
      } else if RefsOwned(log) && Names(events, c) {
        OneOwner(log, n, m, seen[k], k, c);
      }
    }
  }

  lemma ProjectionKeepsPresent(db: Db, log: seq<Event>, seen: map<MandateId, nat>, m: MandateId, n: nat, r: Db, k: MandateId)
    requires Stored(db, log, seen) && n <= |log| && (m in seen ==> seen[m] <= n) && RefsOwned(log)
    requires OfMandate(log[..n], m) != [] && ApplyMandate(db, m, OfMandate(log[..n], m)) == Some(r)
    requires k in seen[m := n]
    ensures seen[m := n][k] <= |log| && DatedCyclesPresent(r, log, seen[m := n], k)
  {
    var events := OfMandate(log[..n], m);
    ApplyMandateFacts(db, m, events);
    if k == m {
      forall c | Names(events, c) && Dated(ForCycle(events, c)) ensures c in r.cycles && r.cycles[c].mandate == m {
        if c in db.cycles {
          assert CycleStored(db, log, seen, c);
          OneOwner(log, n, m, seen[db.cycles[c].mandate], db.cycles[c].mandate, c);
        }
      }
    } else {
      assert MandateStored(db, log, seen, k);
      assert DatedCyclesPresent(db, log, seen, k);
    }
  }

  lemma ProjectionStores(db: Db, log: seq<Event>, seen: map<MandateId, nat>, m: MandateId, n: nat, r: Db)
    requires Stored(db, log, seen) && n <= |log| && (m in seen ==> seen[m] <= n)
    requires OfMandate(log[..n], m) != [] && ApplyMandate(db, m, OfMandate(log[..n], m)) == Some(r)
    ensures Stored(r, log, seen[m := n])
    ensures forall k :: k in db.mandates && k != m ==> k in r.mandates && r.mandates[k] == db.mandates[k]
    ensures forall k :: k in r.mandates ==> k in db.mandates || k == m
  {
    ApplyMandateFacts(db, m, OfMandate(log[..n], m));
    forall c | c in r.cycles ensures CycleStored(r, log, seen[m := n], c) {
      ProjectionStoresCycle(db, log, seen, m, n, r, c);
    }
    var now := seen[m := n];
    if RefsOwned(log) {
      forall k | k in now ensures now[k] <= |log| && DatedCyclesPresent(r, log, now, k) {
        ProjectionKeepsPresent(db, log, seen, m, n, r, k);
      }
    }
    forall k | k in now ensures MandateStored(r, log, now, k) {
      if k != m { assert MandateStored(db, log, seen, k); }
    }
    forall k ensures Dense(r.cycles, k) {
      ApplyMandateDense(db, m, OfMandate(log[..n], m), k);
    }
  }

  ghost predicate ReadsOk(db: Db, log: seq<Event>, seen: map<MandateId, nat>, done: seq<Read>) {
    && (forall r :: r in done ==>
          && r.mandate in db.mandates && r.upTo <= |log| && OfMandate(log[..r.upTo], r.mandate) != []
          && (r.mandate in seen ==> seen[r.mandate] <= r.upTo))
    && (forall i, j :: 0 <= i < j < |done| ==> done[i].mandate != done[j].mandate)
  }

  lemma {:induction false} SeenAfterFacts(seen: map<MandateId, nat>, done: seq<Read>)
    requires forall i, j :: 0 <= i < j < |done| ==> done[i].mandate != done[j].mandate
    ensures var s := SeenAfter(seen, done);
            && (forall r :: r in done ==> r.mandate in s && s[r.mandate] == r.upTo)
            && (forall m :: (forall r :: r in done ==> r.mandate != m) ==> (m in s <==> m in seen) && (m in seen ==> s[m] == seen[m]))
            && (forall m :: m in seen ==> m in s)
    decreases |done|
  {
    if done != [] {
      var first, rest := done[0], done[1..];
      assert done == [first] + rest;
      SeenAfterFacts(seen[first.mandate := first.upTo], rest);
      assert forall r :: r in rest ==> r.mandate != first.mandate;
    }
  }

  lemma {:induction false} CommitStores(db: Db, log: seq<Event>, seen: map<MandateId, nat>, done: seq<Read>, r: Db)
    requires Stored(db, log, seen) && ReadsOk(db, log, seen, done) && ApplyAll(db, log, done) == Some(r)
    ensures Stored(r, log, SeenAfter(seen, done))
    ensures r.mandates.Keys == db.mandates.Keys
    ensures forall k :: k in db.mandates && (forall d :: d in done ==> d.mandate != k) ==> r.mandates[k] == db.mandates[k]
    decreases |done|
  {
    if done != [] {
      var d, rest := done[0], done[1..];
      assert done == [d] + rest;
      var first := ApplyMandate(db, d.mandate, OfMandate(log[..d.upTo], d.mandate)).value;
      ProjectionStores(db, log, seen, d.mandate, d.upTo, first);
      ApplyMandateFacts(db, d.mandate, OfMandate(log[..d.upTo], d.mandate));
      CommitStores(first, log, seen[d.mandate := d.upTo], rest, r);
    }
  }

  // ---------------------------------------------------------------- the inductive invariant

  /** Event `i` is covered for mandate `m`: no committed or pending projection of `m` has missed it. */
  ghost predicate Covered(w: World, i: nat, m: MandateId) {
    && (m in w.seen ==> i < w.seen[m])
    && forall x, r :: x in w.txns && r in w.txns[x].done && r.mandate == m ==> i < r.upTo
  }

  /** What a transaction holds: real events, reads under exclusive locks, and mandates still to visit. */
  ghost predicate TxnOk(w: World, x: WorkerId)
    requires x in w.txns
  {
    var t := w.txns[x];
    && (forall i :: i in t.claimed ==> i < |w.log|)
    && ReadsOk(w.db, w.log, w.seen, t.done)
    && Text.Ascending(t.todo)
    && (forall m :: m in t.todo ==> NamedBy(w.log, t.claimed, m))
    && (forall r :: r in t.done ==> r.mandate !in t.todo)
  }

  ghost predicate HasRead(t: Txn, i: nat, m: MandateId) {
    exists r :: r in t.done && r.mandate == m && i < r.upTo
  }

  /** Each claimed event is still to be projected, has been read, or was already covered. */
  ghost predicate TxnCovers(w: World, x: WorkerId)
    requires x in w.txns && forall i :: i in w.txns[x].claimed ==> i < |w.log|
  {
    forall i, m :: i in w.txns[x].claimed && w.log[i].mandate == Some(m) ==>
      m in w.txns[x].todo || HasRead(w.txns[x], i, m) || Covered(w, i, m)
  }

  ghost predicate ProcessedCovered(w: World) {
    && (forall i :: i in w.processed ==> i < |w.log|)
    && (forall i, m :: i in w.processed && w.log[i].mandate == Some(m) ==> Covered(w, i, m))
  }

  ghost predicate LocksExclusive(w: World) {
    forall x, y, q, r ::
      x in w.txns && y in w.txns && q in w.txns[x].done && r in w.txns[y].done && q.mandate == r.mandate ==> x == y
  }

  ghost predicate Unseen(w: World) {
    && w.born.Keys == w.db.mandates.Keys
    && forall m :: m in w.db.mandates && m !in w.seen ==> w.db.mandates[m] == w.born[m]
  }

  ghost predicate TxnsOk(w: World) {
    && (forall x :: x in w.txns ==> TxnOk(w, x))
    && (forall x :: x in w.txns ==> TxnCovers(w, x))
    && LocksExclusive(w)
  }

  ghost predicate Inv(w: World) {
    Stored(w.db, w.log, w.seen) && ProcessedCovered(w) && TxnsOk(w) && Unseen(w)
  }

  // ---------------------------------------------------------------- a new event

  lemma MandateOnLongerLog(db: Db, log: seq<Event>, e: Event, seen: map<MandateId, nat>, m: MandateId)
    requires MandateStored(db, log, seen, m)
    ensures MandateStored(db, log + [e], seen, m)
  {
    assert (log + [e])[..seen[m]] == log[..seen[m]];
  }

  lemma CycleOnLongerLog(db: Db, log: seq<Event>, e: Event, seen: map<MandateId, nat>, c: CycleId)
    requires c in db.cycles && CycleStored(db, log, seen, c)
    ensures CycleStored(db, log + [e], seen, c)
  {
    var m := db.cycles[c].mandate;
    assert (log + [e])[..seen[m]] == log[..seen[m]];
    assert RefsOwned(log + [e]) ==> RefsOwned(log);
  }

  lemma PresentOnLongerLog(db: Db, log: seq<Event>, e: Event, seen: map<MandateId, nat>, m: MandateId)
    requires m in seen && seen[m] <= |log| && DatedCyclesPresent(db, log, seen, m)
    ensures DatedCyclesPresent(db, log + [e], seen, m)
  {
    assert (log + [e])[..seen[m]] == log[..seen[m]];
  }

  lemma StoredOnLongerLog(db: Db, log: seq<Event>, e: Event, seen: map<MandateId, nat>)
    requires Stored(db, log, seen)
    ensures Stored(db, log + [e], seen)
  {
    forall m | m in seen ensures MandateStored(db, log + [e], seen, m) {
      assert MandateStored(db, log, seen, m);
      MandateOnLongerLog(db, log, e, seen, m);
    }
    forall c | c in db.cycles ensures CycleStored(db, log + [e], seen, c) {
      assert CycleStored(db, log, seen, c);
      CycleOnLongerLog(db, log, e, seen, c);
    }
    if RefsOwned(log + [e]) {
      assert RefsOwned(log);
      forall m | m in seen ensures DatedCyclesPresent(db, log + [e], seen, m) {
        assert MandateStored(db, log, seen, m);
        PresentOnLongerLog(db, log, e, seen, m);
      }
    }
  }

  lemma TxnOnLongerLog(w: World, e: Event, x: WorkerId)
    requires x in w.txns && TxnOk(w, x) && TxnCovers(w, x)
    ensures TxnOk(w.(log := w.log + [e]), x) && TxnCovers(w.(log := w.log + [e]), x)
  {
    var v := w.(log := w.log + [e]);
    var t := w.txns[x];
    forall r | r in t.done ensures OfMandate(v.log[..r.upTo], r.mandate) != [] {
      assert v.log[..r.upTo] == w.log[..r.upTo];
    }
    forall m | m in t.todo ensures NamedBy(v.log, t.claimed, m) {
      var i :| i in t.claimed && i < |w.log| && w.log[i].mandate == Some(m);
      assert v.log[i] == w.log[i];
    }
    forall i, m | i in t.claimed && v.log[i].mandate == Some(m)
      ensures m in t.todo || HasRead(t, i, m) || Covered(v, i, m)
    {
      assert w.log[i] == v.log[i];
      if Covered(w, i, m) { assert Covered(v, i, m); }
    }
  }

  lemma ArriveKeepsInv(w: World, e: Event)
    requires Inv(w)
    ensures Inv(w.(log := w.log + [e]))
  {
    var v := w.(log := w.log + [e]);
    StoredOnLongerLog(w.db, w.log, e, w.seen);
    forall x | x in v.txns ensures TxnOk(v, x) && TxnCovers(v, x) {
      TxnOnLongerLog(w, e, x);
    }
    forall i, m | i in v.processed && v.log[i].mandate == Some(m) ensures Covered(v, i, m) {
      assert w.log[i] == v.log[i];
      assert Covered(w, i, m);
    }
  }

  // ---------------------------------------------------------------- claiming and reading

  lemma BeginKeepsInv(w: World, x: WorkerId, ids: set<nat>, todo: seq<MandateId>)
    requires Inv(w) && Enabled(w, Begin(x, ids, todo))
    ensures Inv(Next(w, Begin(x, ids, todo)))
  {
    var v := Next(w, Begin(x, ids, todo));
    CoveredFrame(w, v);
    forall y | y in v.txns ensures TxnOk(v, y) && TxnCovers(v, y) {
      if y != x {
        assert TxnOk(w, y) && TxnCovers(w, y);
      } else {
        forall i, m | i in ids && v.log[i].mandate == Some(m) ensures m in todo {
          assert NamedBy(w.log, ids, m);
        }
      }
    }
  }

  /** Coverage looks only at what has been read; a world with no new reads covers what it covered. */
  lemma CoveredFrame(w: World, v: World)
    requires v.seen == w.seen
    requires forall x, r :: x in v.txns && r in v.txns[x].done ==> x in w.txns && r in w.txns[x].done
    ensures forall i, m :: Covered(w, i, m) ==> Covered(v, i, m)
  {}

  /** A read under the lock takes in everything that has arrived, so it covers whatever was covered. */
  lemma CoveredAfterTake(w: World, x: WorkerId, i: nat, m: MandateId)
    requires x in w.txns && w.txns[x].todo != [] && i < |w.log| && Covered(w, i, m)
    ensures Covered(w.(txns := w.txns[x := Taken(w, w.txns[x])]), i, m)
  {}

  lemma TakeReads(w: World, x: WorkerId)
    requires x in w.txns && TxnOk(w, x) && w.txns[x].todo != []
    requires forall k :: k in w.seen ==> w.seen[k] <= |w.log|
    ensures ReadsOk(w.db, w.log, w.seen, Taken(w, w.txns[x]).done)
  {
    var t, u := w.txns[x], Taken(w, w.txns[x]);
    var m := t.todo[0];
    assert m in t.todo;
    var i :| i in t.claimed && i < |w.log| && w.log[i].mandate == Some(m);
    assert w.log[..|w.log|] == w.log;
    PrefixContains(w.log, |w.log|, i, m);
    assert forall r :: r in u.done ==> r in t.done || r == Read(m, |w.log|);
  }

  lemma TakeKeepsTxnOk(w: World, x: WorkerId)
    requires x in w.txns && TxnOk(w, x) && w.txns[x].todo != []
    requires forall k :: k in w.seen ==> w.seen[k] <= |w.log|
    ensures TxnOk(w.(txns := w.txns[x := Taken(w, w.txns[x])]), x)
  {
    var t, u := w.txns[x], Taken(w, w.txns[x]);
    var m := t.todo[0];
    TakeReads(w, x);
    assert t.todo == [m] + t.todo[1..];
    Text.LessIrreflexive(m);
    assert m !in t.todo[1..];
    assert forall r :: r in u.done ==> r in t.done || r.mandate == m;
  }

  lemma TakeKeepsTxn(w: World, x: WorkerId)
    requires Inv(w) && Enabled(w, Take(x))
    ensures TxnOk(Next(w, Take(x)), x) && TxnCovers(Next(w, Take(x)), x)
  {
    var v := Next(w, Take(x));
    var t, u := w.txns[x], Taken(w, w.txns[x]);
    assert TxnOk(w, x);
    assert forall k :: k in w.seen ==> MandateStored(w.db, w.log, w.seen, k);
    TakeKeepsTxnOk(w, x);
    forall j, k | j in t.claimed && w.log[j].mandate == Some(k)
      ensures k in u.todo || HasRead(u, j, k) || Covered(v, j, k)
    {
      TakeCovers(w, x, j, k);
    }
  }

  lemma TakeCovers(w: World, x: WorkerId, j: nat, k: MandateId)
    requires Inv(w) && Enabled(w, Take(x))
    requires j in w.txns[x].claimed && j < |w.log| && w.log[j].mandate == Some(k)
    ensures var u := Taken(w, w.txns[x]);
            k in u.todo || HasRead(u, j, k) || Covered(Next(w, Take(x)), j, k)
  {
    var t, u := w.txns[x], Taken(w, w.txns[x]);
    assert TxnCovers(w, x);
    assert t.todo == [t.todo[0]] + t.todo[1..];
    if Covered(w, j, k) {
      CoveredAfterTake(w, x, j, k);
    } else if HasRead(t, j, k) {
      var r :| r in t.done && r.mandate == k && j < r.upTo;
      assert r in u.done;
    } else if k == t.todo[0] {
      if k in w.db.mandates {
        assert Read(k, |w.log|) in u.done;
      } else {
        UnknownUnread(w, k);
        CoveredAfterTake(w, x, j, k);
      }
    }
  }

  /** A mandate that is not registered has been neither projected nor read. */
  lemma UnknownUnread(w: World, k: MandateId)
    requires Inv(w) && k !in w.db.mandates
    ensures forall i :: Covered(w, i, k)
  {
    assert k in w.seen ==> MandateStored(w.db, w.log, w.seen, k);
    forall x, r | x in w.txns && r in w.txns[x].done ensures r.mandate != k {
      assert TxnOk(w, x);
    }
  }

  lemma TakeKeepsInv(w: World, x: WorkerId)
    requires Inv(w) && Enabled(w, Take(x))
    ensures Inv(Next(w, Take(x)))
  {
    var v := Next(w, Take(x));
    TakeKeepsTxn(w, x);
    forall i, m | i in v.processed && v.log[i].mandate == Some(m) ensures Covered(v, i, m) {
      assert Covered(w, i, m);
      CoveredAfterTake(w, x, i, m);
    }
    forall y | y in v.txns && y != x ensures TxnOk(v, y) && TxnCovers(v, y) {
      assert TxnOk(w, y) && TxnCovers(w, y);
      forall i, m | i in v.txns[y].claimed && v.log[i].mandate == Some(m)
        ensures m in v.txns[y].todo || HasRead(v.txns[y], i, m) || Covered(v, i, m)
      {
        if Covered(w, i, m) { CoveredAfterTake(w, x, i, m); }
      }
    }
    TakeKeepsLocks(w, x);
  }

  lemma TakeKeepsLocks(w: World, x: WorkerId)
    requires LocksExclusive(w) && Enabled(w, Take(x))
    ensures LocksExclusive(Next(w, Take(x)))
  {
    var m := w.txns[x].todo[0];
    var u := Taken(w, w.txns[x]);
    assert forall r :: r in u.done ==> r in w.txns[x].done || (r.mandate == m && !Locked(w, m));
    LocksAfterTake(w, Next(w, Take(x)), x, m, u);
  }

  lemma LocksAfterTake(w: World, v: World, x: WorkerId, m: MandateId, u: Txn)
    requires LocksExclusive(w) && x in w.txns && v.txns == w.txns[x := u]
    requires forall r :: r in u.done ==> r in w.txns[x].done || (r.mandate == m && !Locked(w, m))
    ensures LocksExclusive(v)
  {}

  // ---------------------------------------------------------------- committing

  ghost predicate CanCommit(w: World, x: WorkerId) {
    Enabled(w, Commit(x)) && ApplyAll(w.db, w.log, w.txns[x].done).Some?
  }

  /** What a commit does to the log's readers: its reads become what was seen, and its locks go. */
  ghost predicate Hands(w: World, v: World, x: WorkerId) {
    x in w.txns && v.log == w.log && v.txns == w.txns - {x} && v.seen == SeenAfter(w.seen, w.txns[x].done)
  }

  lemma CommitCoversRead(w: World, v: World, x: WorkerId, i: nat, m: MandateId)
    requires Hands(w, v, x) && LocksExclusive(w) && ReadsOk(w.db, w.log, w.seen, w.txns[x].done)
    requires HasRead(w.txns[x], i, m)
    ensures Covered(v, i, m)
  {
    SeenAfterFacts(w.seen, w.txns[x].done);
    var r :| r in w.txns[x].done && r.mandate == m && i < r.upTo;
    forall y, q | y in v.txns && q in v.txns[y].done ensures q.mandate != m {
      assert y in w.txns && y != x && q in w.txns[y].done;
    }
  }

  lemma CommitKeepsCovered(w: World, v: World, x: WorkerId, i: nat, m: MandateId)
    requires Hands(w, v, x) && LocksExclusive(w) && ReadsOk(w.db, w.log, w.seen, w.txns[x].done)
    requires Covered(w, i, m)
    ensures Covered(v, i, m)
  {
    var done := w.txns[x].done;
    SeenAfterFacts(w.seen, done);
    if exists r :: r in done && r.mandate == m {
      var r :| r in done && r.mandate == m;
      assert i < r.upTo;
      CommitCoversRead(w, v, x, i, m);
    } else {
      assert forall r :: r in done ==> r.mandate != m;
    }
  }

  lemma CommitKeepsReads(w: World, v: World, x: WorkerId, y: WorkerId)
    requires Hands(w, v, x) && TxnsOk(w) && v.db.mandates.Keys == w.db.mandates.Keys
    requires y in w.txns && y != x
    ensures TxnOk(v, y)
  {
    var done := w.txns[x].done;
    assert TxnOk(w, x) && TxnOk(w, y);
    SeenAfterFacts(w.seen, done);
    forall r | r in w.txns[y].done ensures r.mandate in v.seen ==> v.seen[r.mandate] <= r.upTo {
      assert forall q :: q in done ==> q.mandate != r.mandate;
    }
  }

  lemma CommitKeepsTxn(w: World, v: World, x: WorkerId, y: WorkerId)
    requires Hands(w, v, x) && TxnsOk(w) && v.db.mandates.Keys == w.db.mandates.Keys
    requires y in w.txns && y != x
    ensures TxnOk(v, y) && TxnCovers(v, y)
  {
    CommitKeepsReads(w, v, x, y);
    assert TxnOk(w, y) && TxnCovers(w, y);
    forall i, m | i in w.txns[y].claimed && w.log[i].mandate == Some(m)
      ensures m in w.txns[y].todo || HasRead(w.txns[y], i, m) || Covered(v, i, m)
    {
      if Covered(w, i, m) { CommitKeepsCovered(w, v, x, i, m); }
    }
  }

  lemma CommitKeepsTxns(w: World, v: World, x: WorkerId)
    requires Hands(w, v, x) && TxnsOk(w) && v.db.mandates.Keys == w.db.mandates.Keys
    ensures TxnsOk(v)
  {
    forall y | y in v.txns ensures TxnOk(v, y) && TxnCovers(v, y) {
      CommitKeepsTxn(w, v, x, y);
    }
  }

  lemma CommitStamps(w: World, v: World, x: WorkerId)
    requires Hands(w, v, x) && TxnsOk(w) && ProcessedCovered(w)
    requires w.txns[x].todo == [] && v.processed == w.processed + w.txns[x].claimed
    ensures ProcessedCovered(v)
  {
    assert TxnOk(w, x) && TxnCovers(w, x);
    forall i, m | i in v.processed && v.log[i].mandate == Some(m) ensures Covered(v, i, m) {
      if i !in w.processed && HasRead(w.txns[x], i, m) {
        CommitCoversRead(w, v, x, i, m);
      } else {
        assert Covered(w, i, m);
        CommitKeepsCovered(w, v, x, i, m);
      }
    }
  }

  lemma CommitKeepsUnseen(w: World, v: World, x: WorkerId)
    requires Hands(w, v, x) && TxnsOk(w) && Unseen(w) && v.born == w.born
    requires v.db.mandates.Keys == w.db.mandates.Keys
    requires forall k :: k in w.db.mandates && (forall d :: d in w.txns[x].done ==> d.mandate != k) ==>
               v.db.mandates[k] == w.db.mandates[k]
    ensures Unseen(v)
  {
    assert TxnOk(w, x);
    SeenAfterFacts(w.seen, w.txns[x].done);
    forall m | m in v.db.mandates && m !in v.seen ensures v.db.mandates[m] == v.born[m] {
      assert forall r :: r in w.txns[x].done ==> r.mandate != m;
    }
  }

  lemma CommitKeepsInv(w: World, x: WorkerId)
    requires Inv(w) && CanCommit(w, x)
    ensures Inv(Next(w, Commit(x)))
  {
    var v := Next(w, Commit(x));
    assert Hands(w, v, x);
    assert TxnOk(w, x);
    CommitStores(w.db, w.log, w.seen, w.txns[x].done, v.db);
    CommitStamps(w, v, x);
    CommitKeepsTxns(w, v, x);
    CommitKeepsUnseen(w, v, x);
  }

  lemma AbortKeepsInv(w: World, x: WorkerId)
    requires Inv(w)
    ensures Inv(w.(txns := w.txns - {x}))
  {
    var v := w.(txns := w.txns - {x});
    CoveredFrame(w, v);
    forall y | y in v.txns ensures TxnOk(v, y) && TxnCovers(v, y) {
      assert TxnOk(w, y) && TxnCovers(w, y);
    }
  }

  // ---------------------------------------------------------------- everybody else

  /** Neither registering a mandate nor the executor touches anything a projection wrote. */
  lemma StoredFrame(a: Db, b: Db, log: seq<Event>, seen: map<MandateId, nat>)
    requires Stored(a, log, seen)
    requires forall m :: m in seen && m in a.mandates ==> m in b.mandates && b.mandates[m] == a.mandates[m]
    requires a.cycles.Keys == b.cycles.Keys
    requires forall c :: c in a.cycles ==>
               b.cycles[c] == a.cycles[c].(used := b.cycles[c].used, pdnSentAt := b.cycles[c].pdnSentAt)
    ensures Stored(b, log, seen)
  {
    forall k | k in seen ensures MandateStored(b, log, seen, k) {
      assert MandateStored(a, log, seen, k);
    }
    forall c | c in b.cycles ensures CycleStored(b, log, seen, c) {
      assert CycleStored(a, log, seen, c);
    }
    if RefsOwned(log) {
      forall k | k in seen ensures DatedCyclesPresent(b, log, seen, k) {
        assert DatedCyclesPresent(a, log, seen, k);
      }
    }
    forall m ensures Dense(b.cycles, m) {
      DenseFrame(a.cycles, b.cycles, m);
    }
  }

  lemma TxnsFrame(w: World, v: World)
    requires TxnsOk(w) && v.log == w.log && v.seen == w.seen && v.txns == w.txns
    requires w.db.mandates.Keys <= v.db.mandates.Keys
    ensures TxnsOk(v)
  {
    CoveredFrame(w, v);
    forall y | y in v.txns ensures TxnOk(v, y) && TxnCovers(v, y) {
      assert TxnOk(w, y) && TxnCovers(w, y);
    }
  }

  lemma AddMandateKeepsInv(w: World, m: MandateId, state: MandateState)
    requires Inv(w) && m !in w.db.mandates
    ensures Inv(w.(db := w.db.(mandates := w.db.mandates[m := state]), born := w.born[m := state]))
  {
    var v := w.(db := w.db.(mandates := w.db.mandates[m := state]), born := w.born[m := state]);
    assert m in w.seen ==> MandateStored(w.db, w.log, w.seen, m);
    StoredFrame(w.db, v.db, w.log, w.seen);
    NewcomerUnseen(w, m, state);
    CoveredFrame(w, v);
    TxnsFrame(w, v);
  }

  lemma NewcomerUnseen(w: World, m: MandateId, state: MandateState)
    requires Unseen(w)
    ensures Unseen(w.(db := w.db.(mandates := w.db.mandates[m := state]), born := w.born[m := state]))
  {}

  lemma ExecuteKeepsInv(w: World, db: Db)
    requires Inv(w) && ExecutorOnly(w.db, db)
    ensures Inv(w.(db := db))
  {
    StoredFrame(w.db, db, w.log, w.seen);
    CoveredFrame(w, w.(db := db));
    TxnsFrame(w, w.(db := db));
  }

  lemma StepKeepsInv(w: World, s: Step)
    requires Inv(w)
    ensures Inv(Next(w, s))
  {
    if Enabled(w, s) {
      match s
      case Arrive(e) => ArriveKeepsInv(w, e);
      case AddMandate(m, state) => AddMandateKeepsInv(w, m, state);
      case Execute(db) => ExecuteKeepsInv(w, db);
      case Begin(x, ids, todo) => BeginKeepsInv(w, x, ids, todo);
      case Take(x) => TakeKeepsInv(w, x);
      case Commit(x) =>
        if ApplyAll(w.db, w.log, w.txns[x].done).Some? { CommitKeepsInv(w, x); } else { AbortKeepsInv(w, x); }
      case Abort(x) => AbortKeepsInv(w, x);
    }
  }

  lemma {:induction false} InvAlways(w: World, steps: seq<Step>)
    requires Inv(w)
    ensures Inv(Run(w, steps))
    decreases steps
  {
    if steps != [] {
      StepKeepsInv(w, steps[0]);
      InvAlways(Next(w, steps[0]), steps[1..]);
    }
  }

  // ---------------------------------------------------------------- what follows

  /** No event that names this mandate is still waiting to be processed. */
  ghost predicate Drained(w: World, m: MandateId) {
    forall i :: 0 <= i < |w.log| && w.log[i].mandate == Some(m) ==> i in w.processed
  }

  lemma {:induction false} NothingAfter(log: seq<Event>, m: MandateId, n: nat)
    requires n <= |log| && forall i :: n <= i < |log| ==> log[i].mandate != Some(m)
    ensures OfMandate(log, m) == OfMandate(log[..n], m)
    decreases |log| - n
  {
    if n == |log| {
      assert log[..n] == log;
    } else {
      var init := log[..|log| - 1];
      NothingAfter(init, m, n);
      assert init[..n] == log[..n];
    }
  }

  lemma DrainedIsSeen(w: World, m: MandateId)
    requires Inv(w) && m in w.seen && Drained(w, m)
    ensures w.seen[m] <= |w.log| && EventsSeen(w.log, w.seen, m) == OfMandate(w.log, m)
  {
    assert MandateStored(w.db, w.log, w.seen, m);
    forall i | w.seen[m] <= i < |w.log| ensures w.log[i].mandate != Some(m) {
      assert w.log[i].mandate == Some(m) ==> Covered(w, i, m);
    }
    NothingAfter(w.log, m, w.seen[m]);
  }

  /** The cycles of a drained mandate that has been projected, when references are exclusive. */
  lemma SeenCyclesConverged(steps: seq<Step>, m: MandateId, c: CycleId)
    requires m in Run(START, steps).seen && Drained(Run(START, steps), m) && RefsOwned(Run(START, steps).log)
    ensures var w := Run(START, steps);
            var mine := OfMandate(w.log, m);
            && (c in CyclesOf(w.db.cycles, m) <==> Names(mine, c) && Dated(ForCycle(mine, c)))
            && (c in CyclesOf(w.db.cycles, m) ==> Matches(w.db.cycles[c], ProjectCycle(ForCycle(mine, c))))
  {
    InvAlways(START, steps);
    var w := Run(START, steps);
    DrainedIsSeen(w, m);
    assert MandateStored(w.db, w.log, w.seen, m) && DatedCyclesPresent(w.db, w.log, w.seen, m);
    if c in CyclesOf(w.db.cycles, m) {
      assert CycleStored(w.db, w.log, w.seen, c);
    }
  }

  ghost predicate KeepsNumbers(w: World, v: World) {
    forall c :: c in w.db.cycles ==>
      c in v.db.cycles && v.db.cycles[c].seqNo == w.db.cycles[c].seqNo && v.db.cycles[c].mandate == w.db.cycles[c].mandate
  }

  lemma {:induction false} ApplyAllKeepsNumbers(db: Db, log: seq<Event>, done: seq<Read>)
    requires (forall r :: r in done ==> r.upTo <= |log|) && ApplyAll(db, log, done).Some?
    ensures forall c :: c in db.cycles ==>
              c in ApplyAll(db, log, done).value.cycles
              && SameIdentity(ApplyAll(db, log, done).value.cycles[c], db.cycles[c])
    decreases |done|
  {
    if done != [] {
      var events := OfMandate(log[..done[0].upTo], done[0].mandate);
      var first := ApplyMandate(db, done[0].mandate, events).value;
      if events != [] { ApplyMandateFacts(db, done[0].mandate, events); }
      ApplyAllKeepsNumbers(first, log, done[1..]);
    }
  }

  lemma {:induction false} NumbersAlways(w: World, steps: seq<Step>)
    ensures KeepsNumbers(w, Run(w, steps))
    decreases steps
  {
    if steps != [] {
      var v := Next(w, steps[0]);
      if Enabled(w, steps[0]) && steps[0].Commit? && ApplyAll(w.db, w.log, w.txns[steps[0].worker].done).Some? {
        ApplyAllKeepsNumbers(w.db, w.log, w.txns[steps[0].worker].done);
      }
      assert KeepsNumbers(w, v);
      NumbersAlways(v, steps[1..]);
    }
  }

  /**
   * Billing sequence numbers, whatever the references: in every run a mandate's cycles are numbered
   * 1..n without gap or repetition, and a number once given never changes.
   */
  lemma SequenceNumbersAreStable(before: seq<Step>, after: seq<Step>, m: MandateId)
    ensures Dense(Run(START, before).db.cycles, m)
    ensures KeepsNumbers(Run(START, before), Run(Run(START, before), after))
  {
    InvAlways(START, before);
    NumbersAlways(Run(START, before), after);
  }
}

/** The executor's transactions (`Firing`, `Notice`, `Relay`) are steps of the machine above. */
module Concurrency {
  import opened Common
  import opened Projection
  import opened Tables
  import opened Convergence
  import Claiming
  import Firing
  import Notice
  import Relay

  lemma FiringIsAStep(w: World, digest: string -> string, action: Claiming.ClaimedAction, c: Firing.Conditions)
    ensures var db := Firing.Fire(digest, w.db, action, c).0;
            Next(w, Execute(db)) == w.(db := db)
  {
    var db := Firing.Fire(digest, w.db, action, c).0;
    if Firing.Fire(digest, w.db, action, c).1.Fired? {
      Firing.FiredAsks(digest, w.db, action, c);
      FiredOnly(w.db, db, action.cycle.value);
    } else {
      Firing.RefusalSpendsNothing(digest, w.db, action, c);
    }
    assert ExecutorOnly(w.db, db);
  }

  lemma FiredOnly(a: Db, b: Db, id: CycleId)
    requires id in a.cycles && a.mandates == b.mandates
    requires b.cycles == a.cycles[id := a.cycles[id].(used := a.cycles[id].used + 1)]
    ensures ExecutorOnly(a, b)
  {}

  lemma NoticeIsAStep(w: World, action: Claiming.ClaimedAction, c: Notice.NoticeConditions)
    ensures var db := Notice.FireNotice(w.db, action, c).0;
            Next(w, Execute(db)) == w.(db := db)
  {
    var db := Notice.FireNotice(w.db, action, c).0;
    Notice.NoticeSpendsNothing(w.db, action, c);
    forall id | id in w.db.cycles
      ensures db.cycles[id] == w.db.cycles[id].(used := db.cycles[id].used, pdnSentAt := db.cycles[id].pdnSentAt)
    {
      assert db.cycles[id].(pdnSentAt := None) == w.db.cycles[id].(pdnSentAt := None);
    }
    assert ExecutorOnly(w.db, db);
  }

  lemma SettlingIsAStep(w: World, id: nat, row: OutboxState, attempt: AttemptState)
    requires id < |w.db.outbox|
    ensures var db := Relay.SettleAs(w.db, id, row, attempt);
            Next(w, Execute(db)) == w.(db := db)
  {
    assert ExecutorOnly(w.db, Relay.SettleAs(w.db, id, row, attempt));
  }
}
