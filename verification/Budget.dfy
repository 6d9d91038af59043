/** What every run keeps about cycles, attempts, outbox and ledger, and the budget cap that follows. */
module Budget {
  import opened Common
  import opened States
  import opened Projection
  import opened Tables
  import opened Claiming
  import opened Provider
  import opened Protocol
  import Gate
  import Firing
  import IdemKey
  import Notice
  import Projector
  import Relay

  /** The decision that licenses an intent: it names the key, and every check it records says ALLOW. */
  ghost predicate Licence(d: Decision, a: Attempt) {
    && d.chosenKey == Some(a.key) && d.id == a.decision && d.cycle == a.cycle
    && d.verdict == Judged(Gate.ALLOW)
    && d.checks != [] && forall k :: 0 <= k < |d.checks| ==> d.checks[k].verdict == Gate.ALLOW
  }

  ghost predicate Licensed(decisions: seq<Decision>, a: Attempt) {
    exists i :: 0 <= i < |decisions| && Licence(decisions[i], a)
  }

  /** An outbox row and the attempt it belongs to. */
  predicate Twins(a: Attempt, row: OutboxRow) {
    a.key == row.key && a.cycle == row.request.cycle && a.decision == row.request.decision
  }

  ghost predicate AttemptsOk(db: Db) {
    && (forall i :: 0 <= i < |db.attempts| ==>
          && db.attempts[i].cycle in db.cycles
          && 1 <= db.attempts[i].seqNo <= db.cycles[db.attempts[i].cycle].budget)
    && (forall i, j :: 0 <= i < j < |db.attempts| ==>
          && db.attempts[i].key != db.attempts[j].key
          && (db.attempts[i].cycle != db.attempts[j].cycle || db.attempts[i].seqNo != db.attempts[j].seqNo))
  }

  ghost predicate OutboxOk(db: Db) {
    && |db.outbox| == |db.attempts|
    && forall i :: 0 <= i < |db.outbox| ==> Twins(db.attempts[i], db.outbox[i])
  }

  ghost predicate LedgerOk(db: Db) {
    forall i :: 0 <= i < |db.attempts| ==> Licensed(db.decisions, db.attempts[i])
  }

  ghost predicate CyclesOk(db: Db) {
    forall c :: c in db.cycles ==>
      && db.cycles[c].mandate in db.mandates
      && 0 <= db.cycles[c].used <= db.cycles[c].budget == Projector.ATTEMPT_BUDGET
  }

  ghost predicate Books(db: Db) {
    AttemptsOk(db) && OutboxOk(db) && LedgerOk(db) && CyclesOk(db)
  }

  /** Everything ever submitted is some outbox row's key, with that row's request. */
  ghost predicate SentFromOutbox(w: World) {
    forall i :: 0 <= i < |w.sent| ==> SentRow(w, i)
  }

  ghost predicate SentRow(w: World, i: nat)
    requires i < |w.sent|
  {
    exists j :: 0 <= j < |w.db.outbox| && w.sent[i] == (w.db.outbox[j].key, w.db.outbox[j].request)
  }

  // ---------------------------------------------------------------- preserving the books

  lemma FireKeepsBooks(cfg: Config, db: Db, a: ClaimedAction, c: Firing.Conditions)
    requires Books(db)
    ensures Books(Firing.Fire(cfg.digest, db, a, c).0)
  {
    var r := Firing.Fire(cfg.digest, db, a, c).0;
    if Firing.Fire(cfg.digest, db, a, c).1.Fired? {
      FiringKeepsBooks(cfg, db, a, c);
    } else {
      Firing.RefusalSpendsNothing(cfg.digest, db, a, c);
      RefusedKeepsBooks(db, r);
    }
  }

  lemma FiringKeepsBooks(cfg: Config, db: Db, a: ClaimedAction, c: Firing.Conditions)
    requires Books(db) && Firing.Fire(cfg.digest, db, a, c).1.Fired?
    ensures Books(Firing.Fire(cfg.digest, db, a, c).0)
  {
    FiredRow(cfg, db, a, c);
    var id, key := a.cycle.value, Firing.Fire(cfg.digest, db, a, c).1.key;
    FiredKeepsBooks(db, Firing.Fire(cfg.digest, db, a, c).0, id,
                    Attempt(id, db.cycles[id].used + 1, key, AttemptFired, c.decisionId),
                    OutboxRow(key, Firing.RequestOf(id, db.cycles[id], a, c), OutboxPending, 0));
  }

  lemma RefusedKeepsBooks(db: Db, r: Db)
    requires Books(db) && r.cycles == db.cycles && r.attempts == db.attempts && r.outbox == db.outbox
    requires r.mandates == db.mandates && db.decisions <= r.decisions
    ensures Books(r)
  {
    forall i | 0 <= i < |r.attempts| ensures Licensed(r.decisions, r.attempts[i]) {
      LicensedMonotone(db.decisions, r.decisions, db.attempts[i]);
    }
  }

  lemma FiredKeepsBooks(db: Db, r: Db, id: CycleId, attempt: Attempt, row: OutboxRow)
    requires Books(db) && id in db.cycles && db.cycles[id].used < db.cycles[id].budget && r.mandates == db.mandates
    requires r.cycles == db.cycles[id := db.cycles[id].(used := db.cycles[id].used + 1)]
    requires Twins(attempt, row) && attempt.cycle == id && attempt.seqNo == db.cycles[id].used + 1
    requires |r.decisions| == |db.decisions| + 1 && r.decisions[..|db.decisions|] == db.decisions
    requires Licence(r.decisions[|db.decisions|], attempt)
    requires if HasKey(db.attempts, attempt.key) then r.attempts == db.attempts && r.outbox == db.outbox
             else
               && !HasSeq(db.attempts, id, attempt.seqNo)
               && r.attempts == db.attempts + [attempt] && r.outbox == db.outbox + [row]
    ensures Books(r)
  {
    FiredKeepsLicences(db, r);
  }

  lemma FiredKeepsLicences(db: Db, r: Db)
    requires LedgerOk(db) && |r.decisions| == |db.decisions| + 1 && r.decisions[..|db.decisions|] == db.decisions
    requires || r.attempts == db.attempts
             || exists a :: r.attempts == db.attempts + [a] && Licence(r.decisions[|db.decisions|], a)
    ensures LedgerOk(r)
  {
    forall i | 0 <= i < |r.attempts| ensures Licensed(r.decisions, r.attempts[i]) {
      if i < |db.attempts| {
        LicensedMonotone(db.decisions, r.decisions, db.attempts[i]);
      } else {
        assert Licence(r.decisions[|db.decisions|], r.attempts[i]);
      }
    }
  }

  lemma LicensedMonotone(a: seq<Decision>, b: seq<Decision>, t: Attempt)
    requires Licensed(a, t) && a <= b
    ensures Licensed(b, t)
  {
    var i :| 0 <= i < |a| && Licence(a[i], t);
    assert b[i] == a[i];
  }

  /** The rows a firing adds: none when the key is already known, else one attempt and its outbox twin. */
  lemma FiredRow(cfg: Config, db: Db, a: ClaimedAction, c: Firing.Conditions)
    requires Books(db)
    requires Firing.Fire(cfg.digest, db, a, c).1.Fired?
    ensures var (r, outcome) := Firing.Fire(cfg.digest, db, a, c);
            var id := a.cycle.value;
            var cycle := db.cycles[id];
            var attempt := Attempt(id, cycle.used + 1, outcome.key, AttemptFired, c.decisionId);
            var row := OutboxRow(outcome.key, Firing.RequestOf(id, cycle, a, c), OutboxPending, 0);
            && a.cycle.Some? && id in db.cycles
            && r.cycles == db.cycles[id := cycle.(used := cycle.used + 1)]
            && cycle.used < cycle.budget
            && r.mandates == db.mandates
            && |r.decisions| == |db.decisions| + 1 && r.decisions[..|db.decisions|] == db.decisions
            && Licence(r.decisions[|db.decisions|], attempt)
            && (if HasKey(db.attempts, outcome.key) then r.attempts == db.attempts && r.outbox == db.outbox
                else
                  && !HasSeq(db.attempts, id, cycle.used + 1)
                  && r.attempts == db.attempts + [attempt] && r.outbox == db.outbox + [row])
  {
    Gate.AllowedEvidence(c.reading);
    QueuedWhenKeyed(db, Firing.Fire(cfg.digest, db, a, c).1.key);
  }

  /**
   * A firing queues a new intent exactly when no attempt has its key. Otherwise it takes a unit of budget, records
   * its decision and settles its action, and the rail hears nothing more.
   */
  lemma QueuesExactlyWhen(cfg: Config, db: Db, a: ClaimedAction, c: Firing.Conditions)
    requires Books(db) && Firing.Fire(cfg.digest, db, a, c).1.Fired?
    ensures var (r, outcome) := Firing.Fire(cfg.digest, db, a, c);
            && |r.decisions| == |db.decisions| + 1 && r.decisions[|db.decisions|].chosenKey == Some(outcome.key)
            && (r.outbox != db.outbox <==> forall i :: 0 <= i < |db.attempts| ==> db.attempts[i].key != outcome.key)
            && (r.outbox != db.outbox <==> r.attempts != db.attempts)
            && (r.outbox != db.outbox ==> |r.outbox| == |db.outbox| + 1 && r.outbox[|db.outbox|].key == outcome.key)
  {
    FiredRow(cfg, db, a, c);
  }

  lemma QueuedWhenKeyed(db: Db, key: Key)
    requires OutboxOk(db)
    ensures Queued(db.outbox, key) <==> HasKey(db.attempts, key)
  {
    assert forall i :: 0 <= i < |db.outbox| ==> Twins(db.attempts[i], db.outbox[i]);
  }

  lemma NoticeKeepsBooks(db: Db, a: ClaimedAction, c: Notice.NoticeConditions)
    requires Books(db)
    ensures Books(Notice.FireNotice(db, a, c).0)
  {
    var r := Notice.FireNotice(db, a, c).0;
    Notice.NoticeSpendsNothing(db, a, c);
    assert r.decisions == db.decisions || r.decisions[..|db.decisions|] == db.decisions;
    forall i | 0 <= i < |r.attempts| ensures Licensed(r.decisions, r.attempts[i]) {
      LicensedMonotone(db.decisions, r.decisions, db.attempts[i]);
    }
    forall id | id in r.cycles ensures r.cycles[id].budget == db.cycles[id].budget && r.cycles[id].used == db.cycles[id].used
      && r.cycles[id].mandate == db.cycles[id].mandate {
      assert r.cycles[id].(pdnSentAt := None) == db.cycles[id].(pdnSentAt := None);
    }
  }

  lemma ProjectKeepsBooks(db: Db, m: MandateId, events: seq<Event>)
    requires Books(db) && m in db.mandates && Projector.ApplyMandate(db, m, events).Some?
    ensures Books(Projector.ApplyMandate(db, m, events).value)
    ensures forall c :: c in db.cycles ==> c in Projector.ApplyMandate(db, m, events).value.cycles
  {
    if events != [] {
      var r := Projector.ApplyMandate(db, m, events).value;
      Projector.ApplyMandateFacts(db, m, events);
      forall c | c in r.cycles
        ensures r.cycles[c].mandate in r.mandates
        ensures 0 <= r.cycles[c].used <= r.cycles[c].budget == Projector.ATTEMPT_BUDGET
      {
        if c in db.cycles && r.cycles[c] != db.cycles[c] {
          assert c in Projector.SortedRefs(events) && Projector.Dated(Projector.ForCycle(events, c));
        }
      }
    }
  }

  /** Settling a row touches that row's state and, keys being unique, its own attempt's state only. */
  lemma SettledRows(db: Db, id: nat, row: OutboxState, attempt: AttemptState)
    requires AttemptsOk(db) && OutboxOk(db) && id < |db.outbox|
    ensures var r := Relay.SettleAs(db, id, row, attempt);
            && |r.outbox| == |db.outbox| == |r.attempts|
            && forall i :: 0 <= i < |r.outbox| ==>
                 && r.outbox[i].key == db.outbox[i].key && r.outbox[i].request == db.outbox[i].request
                 && r.outbox[i].state == (if i == id then row else db.outbox[i].state)
                 && r.attempts[i] == if i == id then db.attempts[i].(state := attempt) else db.attempts[i]
  {
    assert Twins(db.attempts[id], db.outbox[id]);
  }

  lemma SettleKeepsBooks(db: Db, id: nat, row: OutboxState, attempt: AttemptState)
    requires Books(db) && id < |db.outbox|
    ensures Books(Relay.SettleAs(db, id, row, attempt))
  {
    var r := Relay.SettleAs(db, id, row, attempt);
    SettledRows(db, id, row, attempt);
    forall i | 0 <= i < |r.outbox| ensures Twins(r.attempts[i], r.outbox[i]) {
      assert Twins(db.attempts[i], db.outbox[i]);
    }
    forall i | 0 <= i < |r.attempts| ensures Licensed(r.decisions, r.attempts[i]) {
      var d :| 0 <= d < |db.decisions| && Licence(db.decisions[d], db.attempts[i]);
      assert Licence(r.decisions[d], r.attempts[i]);
    }
  }

  /** The books are about cycles, attempts, outbox and decisions; new mandates do not disturb them. */
  lemma BooksFrame(a: Db, b: Db)
    requires Books(a) && b.cycles == a.cycles && b.attempts == a.attempts && b.outbox == a.outbox
    requires b.decisions == a.decisions && a.mandates.Keys <= b.mandates.Keys
    ensures Books(b)
  {}

  lemma SettleStepKeepsBooks(db: Db, id: nat, r: Response)
    requires Books(db) && id < |db.outbox|
    ensures Books(Relay.SettleSubmitted(db, id, r))
  {
    if !r.Retriable? {
      var s := Relay.SettleSubmitted(db, id, r);
      SettleKeepsBooks(db, id, s.outbox[id].state, s.attempts[id].state);
      SettledShape(db, id, r);
    }
  }

  lemma QueryStepKeepsBooks(db: Db, id: nat, r: Option<Response>)
    requires Books(db) && id < |db.outbox|
    ensures Books(Relay.SettleFetched(db, id, r))
  {
    if r != Some(Ambiguous) {
      SettleKeepsBooks(db, id, OutboxSent, if r.Some? && r.value.Accepted? then AttemptFired else AttemptFailed);
    }
  }

  lemma StepKeepsBooks(cfg: Config, w: World, s: Step)
    requires Books(w.db)
    ensures Books(Next(cfg, w, s).db)
  {
    if Enabled(w, s) {
      match s
      case Fire(h, c) => FireKeepsBooks(cfg, w.db, h.action, c);
      case SendNotice(h, c) => NoticeKeepsBooks(w.db, h.action, c);
      case Project(m, n) =>
        var events := Projector.OfMandate(w.log[..n], m);
        if Projector.ApplyMandate(w.db, m, events).Some? { ProjectKeepsBooks(w.db, m, events); }
      case Settle(id, r) => SettleStepKeepsBooks(w.db, id, r);
      case SettleQuery(id, r) => QueryStepKeepsBooks(w.db, id, r);
      case _ =>
        OthersKeepRows(cfg, w, s);
        BooksFrame(w.db, Next(cfg, w, s).db);
    }
  }

  lemma OthersKeepRows(cfg: Config, w: World, s: Step)
    requires Enabled(w, s) && !s.Fire? && !s.SendNotice? && !s.Project? && !s.Settle? && !s.SettleQuery?
    ensures var v := Next(cfg, w, s);
            && v.db == w.db.(mandates := v.db.mandates, actions := v.db.actions) && w.db.mandates.Keys <= v.db.mandates.Keys
  {}

  lemma SettledShape(db: Db, id: nat, r: Response)
    requires id < |db.outbox| && id < |db.attempts| && db.attempts[id].key == db.outbox[id].key && !r.Retriable?
    ensures var s := Relay.SettleSubmitted(db, id, r);
            s == Relay.SettleAs(db, id, s.outbox[id].state, s.attempts[id].state)
  {}

  ghost predicate Grows(a: seq<OutboxRow>, b: seq<OutboxRow>) {
    && |a| <= |b|
    && forall i :: 0 <= i < |a| ==> b[i].key == a[i].key && b[i].request == a[i].request
  }

  /** What a fire transaction can do beyond its own row: count an attempt, and add one intent for an unsettled cycle. */
  ghost predicate FireFrame(db: Db, r: Db) {
    && r.cycles.Keys == db.cycles.Keys
    && (forall k :: k in db.cycles ==> r.cycles[k].mandate == db.cycles[k].mandate && r.cycles[k].state == db.cycles[k].state)
    && db.outbox <= r.outbox
    && forall i :: |db.outbox| <= i < |r.outbox| ==>
         r.outbox[i].request.cycle in db.cycles && db.cycles[r.outbox[i].request.cycle].state !in SETTLED_CYCLE_STATES
  }

  lemma FiredFrame(cfg: Config, db: Db, a: ClaimedAction, c: Firing.Conditions)
    requires Books(db) && Firing.Fire(cfg.digest, db, a, c).1.Fired?
    ensures FireFrame(db, Firing.Fire(cfg.digest, db, a, c).0)
  {
    FiredRow(cfg, db, a, c);
    Firing.FiresExactlyWhen(cfg.digest, db, a, c);
  }

  lemma FireKeepsFrame(cfg: Config, db: Db, a: ClaimedAction, c: Firing.Conditions)
    requires Books(db)
    ensures FireFrame(db, Firing.Fire(cfg.digest, db, a, c).0)
  {
    if Firing.Fire(cfg.digest, db, a, c).1.Fired? {
      FiredFrame(cfg, db, a, c);
    } else {
      Firing.RefusalSpendsNothing(cfg.digest, db, a, c);
    }
  }

  /** Outbox rows are never removed, and never change their key or request. */
  lemma OutboxOnlyGrows(cfg: Config, w: World, s: Step)
    requires Books(w.db)
    ensures Grows(w.db.outbox, Next(cfg, w, s).db.outbox)
  {
    if Enabled(w, s) {
      match s
      case Fire(h, c) => FireKeepsFrame(cfg, w.db, h.action, c);
      case SendNotice(h, c) => Notice.NoticeSpendsNothing(w.db, h.action, c);
      case Settle(id, r) => SettleGrowsOutbox(w.db, id, r);
      case SettleQuery(id, r) => QueryGrowsOutbox(w.db, id, r);
      case _ => OthersKeepOutbox(cfg, w, s);
    }
  }

  lemma SettleGrowsOutbox(db: Db, id: nat, r: Response)
    requires id < |db.outbox|
    ensures Grows(db.outbox, Relay.SettleSubmitted(db, id, r).outbox)
    ensures |Relay.SettleSubmitted(db, id, r).outbox| == |db.outbox| && Relay.SettleSubmitted(db, id, r).cycles == db.cycles
  {}

  lemma QueryGrowsOutbox(db: Db, id: nat, r: Option<Response>)
    requires id < |db.outbox|
    ensures Grows(db.outbox, Relay.SettleFetched(db, id, r).outbox)
    ensures |Relay.SettleFetched(db, id, r).outbox| == |db.outbox| && Relay.SettleFetched(db, id, r).cycles == db.cycles
  {
    if r != Some(Ambiguous) {
      SettledAsGrows(db, id, OutboxSent, if r.Some? && r.value.Accepted? then AttemptFired else AttemptFailed);
    }
  }

  lemma SettledAsGrows(db: Db, id: nat, row: OutboxState, attempt: AttemptState)
    requires id < |db.outbox|
    ensures Grows(db.outbox, Relay.SettleAs(db, id, row, attempt).outbox)
    ensures |Relay.SettleAs(db, id, row, attempt).outbox| == |db.outbox|
  {}

  lemma OthersKeepOutbox(cfg: Config, w: World, s: Step)
    requires Enabled(w, s) && !s.Fire? && !s.SendNotice? && !s.Settle? && !s.SettleQuery?
    ensures Next(cfg, w, s).db.outbox == w.db.outbox
  {}

  lemma StepKeepsSent(cfg: Config, w: World, s: Step)
    requires Books(w.db) && SentFromOutbox(w)
    ensures SentFromOutbox(Next(cfg, w, s))
  {
    OutboxOnlyGrows(cfg, w, s);
    SentAfter(cfg, w, s);
    var row := if s.Submit? then s.id else 0;
    SentCarriesOver(w, Next(cfg, w, s), row);
  }

  lemma SentAfter(cfg: Config, w: World, s: Step)
    ensures var v := Next(cfg, w, s);
            || v.sent == w.sent
            || (s.Submit? && s.id < |w.db.outbox| && v.db.outbox == w.db.outbox
                && v.sent == w.sent + [(w.db.outbox[s.id].key, w.db.outbox[s.id].request)])
  {}

  lemma SentCarriesOver(w: World, v: World, row: nat)
    requires SentFromOutbox(w) && Grows(w.db.outbox, v.db.outbox)
    requires || v.sent == w.sent
             || (row < |v.db.outbox| && v.sent == w.sent + [(v.db.outbox[row].key, v.db.outbox[row].request)])
    ensures SentFromOutbox(v)
  {
    forall i | 0 <= i < |v.sent| ensures SentRow(v, i) {
      if i < |w.sent| {
        assert SentRow(w, i);
        var j :| 0 <= j < |w.db.outbox| && w.sent[i] == (w.db.outbox[j].key, w.db.outbox[j].request);
        assert v.sent[i] == (v.db.outbox[j].key, v.db.outbox[j].request);
      }
    }
  }

  lemma {:induction false} BooksAlways(cfg: Config, w: World, steps: seq<Step>)
    requires Books(w.db) && SentFromOutbox(w)
    ensures Books(Run(cfg, w, steps).db) && SentFromOutbox(Run(cfg, w, steps))
    decreases steps
  {
    if steps != [] {
      StepKeepsBooks(cfg, w, steps[0]);
      StepKeepsSent(cfg, w, steps[0]);
      BooksAlways(cfg, Next(cfg, w, steps[0]), steps[1..]);
    }
  }

  lemma {:induction false} OutboxAlways(cfg: Config, w: World, steps: seq<Step>)
    requires Books(w.db)
    ensures Grows(w.db.outbox, Run(cfg, w, steps).db.outbox)
    decreases steps
  {
    if steps != [] {
      OutboxOnlyGrows(cfg, w, steps[0]);
      StepKeepsBooks(cfg, w, steps[0]);
      OutboxAlways(cfg, Next(cfg, w, steps[0]), steps[1..]);
    }
  }

  // ---------------------------------------------------------------- what is charged

  /** The row asks for its cycle's own amount and mandate, under the key of that cycle, attempt, kind and amount. */
  ghost predicate AsksRight(cfg: Config, db: Db, i: nat)
    requires i < |db.outbox| && |db.outbox| == |db.attempts|
  {
    var q := db.outbox[i].request;
    && q.cycle in db.cycles && q.amount == db.cycles[q.cycle].amount && q.mandate == db.cycles[q.cycle].mandate
    && IdemKey.Derive(cfg.digest, IdemKey.Identity(q.cycle, db.attempts[i].seqNo, q.kind, q.amount)) == Some(db.outbox[i].key)
  }

  ghost predicate AllAskRight(cfg: Config, db: Db) {
    |db.outbox| == |db.attempts| && forall i :: 0 <= i < |db.outbox| ==> AsksRight(cfg, db, i)
  }

  /** The same rows as far as what is charged goes, and the same amounts and mandates of the cycles there were. */
  ghost predicate SameAsked(a: Db, b: Db) {
    && |b.outbox| == |a.outbox| && |b.attempts| == |a.attempts|
    && (forall i :: 0 <= i < |a.outbox| ==> b.outbox[i].key == a.outbox[i].key && b.outbox[i].request == a.outbox[i].request)
    && (forall i :: 0 <= i < |a.attempts| ==> b.attempts[i].seqNo == a.attempts[i].seqNo)
    && (forall c :: c in a.cycles ==>
          c in b.cycles && b.cycles[c].amount == a.cycles[c].amount && b.cycles[c].mandate == a.cycles[c].mandate)
  }

  lemma AskedCarriesOver(cfg: Config, a: Db, b: Db)
    requires AllAskRight(cfg, a) && SameAsked(a, b)
    ensures AllAskRight(cfg, b)
  {
    forall i | 0 <= i < |b.outbox| ensures AsksRight(cfg, b, i) { assert AsksRight(cfg, a, i); }
  }

  lemma FireAsksRight(cfg: Config, db: Db, a: ClaimedAction, c: Firing.Conditions)
    requires Books(db) && AllAskRight(cfg, db)
    ensures AllAskRight(cfg, Firing.Fire(cfg.digest, db, a, c).0)
  {
    var r := Firing.Fire(cfg.digest, db, a, c).0;
    if Firing.Fire(cfg.digest, db, a, c).1.Fired? {
      FiringAsksRight(cfg, db, a, c);
    } else {
      Firing.RefusalSpendsNothing(cfg.digest, db, a, c);
      AskedCarriesOver(cfg, db, r);
    }
  }

  lemma FiringAsksRight(cfg: Config, db: Db, a: ClaimedAction, c: Firing.Conditions)
    requires Books(db) && AllAskRight(cfg, db) && Firing.Fire(cfg.digest, db, a, c).1.Fired?
    ensures AllAskRight(cfg, Firing.Fire(cfg.digest, db, a, c).0)
  {
    Firing.FiredAsks(cfg.digest, db, a, c);
    QueuesExactlyWhen(cfg, db, a, c);
    NewRowAsksRight(cfg, db, Firing.Fire(cfg.digest, db, a, c).0);
  }

  lemma NewRowAsksRight(cfg: Config, db: Db, r: Db)
    requires AllAskRight(cfg, db) && |r.outbox| == |r.attempts| && db.outbox <= r.outbox && db.attempts <= r.attempts
    requires |r.outbox| <= |db.outbox| + 1 && r.cycles.Keys == db.cycles.Keys
    requires forall c :: c in db.cycles ==>
               r.cycles[c].amount == db.cycles[c].amount && r.cycles[c].mandate == db.cycles[c].mandate
    requires |r.outbox| > |db.outbox| ==> AsksRight(cfg, r, |db.outbox|)
    ensures AllAskRight(cfg, r)
  {
    forall i | 0 <= i < |r.outbox| ensures AsksRight(cfg, r, i) {
      if i < |db.outbox| { assert AsksRight(cfg, db, i); }
    }
  }

  lemma NoticeAsksRight(cfg: Config, db: Db, a: ClaimedAction, c: Notice.NoticeConditions)
    requires AllAskRight(cfg, db)
    ensures AllAskRight(cfg, Notice.FireNotice(db, a, c).0)
  {
    var r := Notice.FireNotice(db, a, c).0;
    Notice.NoticeSpendsNothing(db, a, c);
    forall id | id in db.cycles ensures r.cycles[id].amount == db.cycles[id].amount && r.cycles[id].mandate == db.cycles[id].mandate {
      assert r.cycles[id].(pdnSentAt := None) == db.cycles[id].(pdnSentAt := None);
    }
    AskedCarriesOver(cfg, db, r);
  }

  lemma ProjectAsksRight(cfg: Config, db: Db, m: MandateId, events: seq<Event>)
    requires AllAskRight(cfg, db) && Projector.ApplyMandate(db, m, events).Some?
    ensures AllAskRight(cfg, Projector.ApplyMandate(db, m, events).value)
  {
    if events != [] {
      Projector.ApplyMandateFacts(db, m, events);
      AskedCarriesOver(cfg, db, Projector.ApplyMandate(db, m, events).value);
    }
  }

  lemma SettleAsksRight(cfg: Config, db: Db, id: nat, row: OutboxState, attempt: AttemptState)
    requires Books(db) && AllAskRight(cfg, db) && id < |db.outbox|
    ensures AllAskRight(cfg, Relay.SettleAs(db, id, row, attempt))
  {
    SettledRows(db, id, row, attempt);
    AskedCarriesOver(cfg, db, Relay.SettleAs(db, id, row, attempt));
  }

  lemma SubmittedAsksRight(cfg: Config, db: Db, id: nat, r: Response)
    requires Books(db) && AllAskRight(cfg, db) && id < |db.outbox|
    ensures AllAskRight(cfg, Relay.SettleSubmitted(db, id, r))
  {
    if r.Retriable? {
      AskedCarriesOver(cfg, db, Relay.SettleSubmitted(db, id, r));
    } else {
      var s := Relay.SettleSubmitted(db, id, r);
      SettleAsksRight(cfg, db, id, s.outbox[id].state, s.attempts[id].state);
      SettledShape(db, id, r);
    }
  }

  lemma FetchedAsksRight(cfg: Config, db: Db, id: nat, r: Option<Response>)
    requires Books(db) && AllAskRight(cfg, db) && id < |db.outbox|
    ensures AllAskRight(cfg, Relay.SettleFetched(db, id, r))
  {
    if r != Some(Ambiguous) {
      SettleAsksRight(cfg, db, id, OutboxSent, if r.Some? && r.value.Accepted? then AttemptFired else AttemptFailed);
    }
  }

  lemma StepAsksRight(cfg: Config, w: World, s: Step)
    requires Books(w.db) && AllAskRight(cfg, w.db)
    ensures AllAskRight(cfg, Next(cfg, w, s).db)
  {
    if Enabled(w, s) {
      match s
      case Fire(h, c) => FireAsksRight(cfg, w.db, h.action, c);
      case SendNotice(h, c) => NoticeAsksRight(cfg, w.db, h.action, c);
      case Project(m, n) =>
        var events := Projector.OfMandate(w.log[..n], m);
        if Projector.ApplyMandate(w.db, m, events).Some? { ProjectAsksRight(cfg, w.db, m, events); }
      case Settle(id, r) => SubmittedAsksRight(cfg, w.db, id, r);
      case SettleQuery(id, r) => FetchedAsksRight(cfg, w.db, id, r);
      case _ =>
        OthersKeepRows(cfg, w, s);
        AskedCarriesOver(cfg, w.db, Next(cfg, w, s).db);
    }
  }

  lemma {:induction false} AsksRightAlways(cfg: Config, w: World, steps: seq<Step>)
    requires Books(w.db) && AllAskRight(cfg, w.db)
    ensures AllAskRight(cfg, Run(cfg, w, steps).db)
    decreases steps
  {
    if steps != [] {
      StepAsksRight(cfg, w, steps[0]);
      StepKeepsBooks(cfg, w, steps[0]);
      AsksRightAlways(cfg, Next(cfg, w, steps[0]), steps[1..]);
    }
  }

  /** What was sent is what the provider itself has noted, submission by submission. */
  ghost predicate SentIsSubmitted(w: World) {
    |w.sent| == |w.provider.submissions| && forall i :: 0 <= i < |w.sent| ==> w.sent[i].0 == w.provider.submissions[i]
  }

  lemma StepSubmits(cfg: Config, w: World, s: Step)
    requires SentIsSubmitted(w)
    ensures SentIsSubmitted(Next(cfg, w, s))
  {
    if Enabled(w, s) && s.Submit? {
      SubmitIsNoted(cfg, w, s.id);
      OneMoreSubmitted(w, Next(cfg, w, s), w.db.outbox[s.id].key, w.db.outbox[s.id].request);
    } else {
      OthersSubmitNothing(cfg, w, s);
    }
  }

  lemma SubmitIsNoted(cfg: Config, w: World, id: nat)
    requires Enabled(w, Submit(id))
    ensures var v := Next(cfg, w, Submit(id));
            && v.provider.submissions == w.provider.submissions + [w.db.outbox[id].key]
            && v.sent == w.sent + [(w.db.outbox[id].key, w.db.outbox[id].request)]
  {}

  lemma OneMoreSubmitted(w: World, v: World, key: Key, q: Request)
    requires SentIsSubmitted(w)
    requires v.provider.submissions == w.provider.submissions + [key] && v.sent == w.sent + [(key, q)]
    ensures SentIsSubmitted(v)
  {}

  lemma OthersSubmitNothing(cfg: Config, w: World, s: Step)
    requires !Enabled(w, s) || !s.Submit?
    ensures Next(cfg, w, s).provider.submissions == w.provider.submissions && Next(cfg, w, s).sent == w.sent
  {}

  lemma {:induction false} ProviderSawSent(cfg: Config, w: World, steps: seq<Step>)
    requires SentIsSubmitted(w)
    ensures SentIsSubmitted(Run(cfg, w, steps))
    decreases steps
  {
    if steps != [] {
      StepSubmits(cfg, w, steps[0]);
      ProviderSawSent(cfg, Next(cfg, w, steps[0]), steps[1..]);
    }
  }

  /**
   * In every run, whatever reaches the rail asks for the amount and the mandate of a cycle on the books, and comes
   * under the key derived from that cycle, the number of the attempt that has the key, the kind and that amount.
   */
  lemma ChargesAreRight(cfg: Config, steps: seq<Step>, i: nat)
    requires i < |Run(cfg, START, steps).sent|
    ensures var w := Run(cfg, START, steps);
            var (key, q) := w.sent[i];
            && q.cycle in w.db.cycles && q.amount == w.db.cycles[q.cycle].amount && q.mandate == w.db.cycles[q.cycle].mandate
            && exists j :: && 0 <= j < |w.db.attempts| && w.db.attempts[j].key == key && w.db.attempts[j].cycle == q.cycle
                           && IdemKey.Derive(cfg.digest, IdemKey.Identity(q.cycle, w.db.attempts[j].seqNo, q.kind, q.amount)) == Some(key)
  {
    BooksAlways(cfg, START, steps);
    AsksRightAlways(cfg, START, steps);
    var w := Run(cfg, START, steps);
    assert SentRow(w, i);
    var j :| 0 <= j < |w.db.outbox| && w.sent[i] == (w.db.outbox[j].key, w.db.outbox[j].request);
    assert AsksRight(cfg, w.db, j) && Twins(w.db.attempts[j], w.db.outbox[j]);
  }

  /** The distinct keys under which a charge for this cycle has ever reached the provider. */
  ghost function ChargeKeys(w: World, c: CycleId): set<Key> {
    set i | 0 <= i < |w.sent| && w.sent[i].1.cycle == c :: w.sent[i].0
  }

  /**
   * In every run, at most the budget of distinct keys for a cycle ever reaches the provider, and
   * none at all for a cycle that is not on the books. Nothing is assumed of the digest.
   */
  lemma BudgetCap(cfg: Config, steps: seq<Step>, c: CycleId)
    ensures var w := Run(cfg, START, steps);
            && |ChargeKeys(w, c)| <= Projector.ATTEMPT_BUDGET
            && (c in w.db.cycles ==> |ChargeKeys(w, c)| <= w.db.cycles[c].budget)
            && (c !in w.db.cycles ==> ChargeKeys(w, c) == {})
  {
    BooksAlways(cfg, START, steps);
    CapFromBooks(Run(cfg, START, steps), c);
  }

  lemma CapFromBooks(w: World, c: CycleId)
    requires Books(w.db) && SentFromOutbox(w)
    ensures |ChargeKeys(w, c)| <= Projector.ATTEMPT_BUDGET
    ensures c in w.db.cycles ==> |ChargeKeys(w, c)| <= w.db.cycles[c].budget
    ensures c !in w.db.cycles ==> ChargeKeys(w, c) == {}
  {
    forall k | k in ChargeKeys(w, c) ensures Belongs(w.db.attempts, c, k) {
      KeyBelongs(w, c, k);
    }
    KeysWithinBudget(w.db, c, ChargeKeys(w, c));
  }

  lemma KeyBelongs(w: World, c: CycleId, k: Key)
    requires Books(w.db) && SentFromOutbox(w) && k in ChargeKeys(w, c)
    ensures Belongs(w.db.attempts, c, k)
  {
    var i :| 0 <= i < |w.sent| && w.sent[i].1.cycle == c && w.sent[i].0 == k;
    assert SentRow(w, i);
    var j :| 0 <= j < |w.db.outbox| && w.sent[i] == (w.db.outbox[j].key, w.db.outbox[j].request);
    assert Twins(w.db.attempts[j], w.db.outbox[j]);
  }

  /** The attempt numbers of one cycle are distinct numbers in 1..budget, so its keys are no more. */
  lemma KeysWithinBudget(db: Db, c: CycleId, keys: set<Key>)
    requires AttemptsOk(db) && CyclesOk(db)
    requires forall k :: k in keys ==> Belongs(db.attempts, c, k)
    ensures |keys| <= Projector.ATTEMPT_BUDGET
    ensures c !in db.cycles ==> keys == {}
  {
    var rank := map k | k in keys :: SeqOf(db.attempts, c, k);
    forall k | k in keys ensures c in db.cycles && 1 <= rank[k] <= Projector.ATTEMPT_BUDGET {
      var j :| 0 <= j < |db.attempts| && db.attempts[j].key == k && db.attempts[j].cycle == c
               && db.attempts[j].seqNo == rank[k];
    }
    forall k, l | k in keys && l in keys && rank[k] == rank[l] ensures k == l {
      var i :| 0 <= i < |db.attempts| && db.attempts[i].key == k && db.attempts[i].cycle == c
               && db.attempts[i].seqNo == rank[k];
      var j :| 0 <= j < |db.attempts| && db.attempts[j].key == l && db.attempts[j].cycle == c
               && db.attempts[j].seqNo == rank[l];
    }
    InjectionBound(keys, rank, Projector.ATTEMPT_BUDGET);
  }

  ghost predicate Belongs(attempts: seq<Attempt>, c: CycleId, k: Key) {
    exists j :: 0 <= j < |attempts| && attempts[j].key == k && attempts[j].cycle == c
  }

  ghost function SeqOf(attempts: seq<Attempt>, c: CycleId, k: Key): (n: int)
    ensures Belongs(attempts, c, k) ==>
              exists j :: 0 <= j < |attempts| && attempts[j].key == k && attempts[j].cycle == c && attempts[j].seqNo == n
  {
    if j :| 0 <= j < |attempts| && attempts[j].key == k && attempts[j].cycle == c then attempts[j].seqNo else 0
  }

  /**
   * Every intent in the outbox has exactly one attempt with its key, numbered within the budget of a
   * known cycle, and a ledger decision that licenses it.
   */
  lemma EveryIntentIsLicensed(cfg: Config, steps: seq<Step>, i: nat)
    requires i < |Run(cfg, START, steps).db.outbox|
    ensures var db := Run(cfg, START, steps).db;
            exists j :: && 0 <= j < |db.attempts|
                        && Twins(db.attempts[j], db.outbox[i])
                        && db.attempts[j].cycle in db.cycles
                        && 1 <= db.attempts[j].seqNo <= db.cycles[db.attempts[j].cycle].budget
                        && Licensed(db.decisions, db.attempts[j])
                        && forall k :: 0 <= k < |db.attempts| && db.attempts[k].key == db.outbox[i].key ==> k == j
  {
    BooksAlways(cfg, START, steps);
    var db := Run(cfg, START, steps).db;
    assert Twins(db.attempts[i], db.outbox[i]);
    assert forall k :: 0 <= k < |db.attempts| && db.attempts[k].key == db.outbox[i].key ==> k == i;
  }

  // ---------------------------------------------------------------- messages to people

  /** A ledger decision records the message: same decision, mandate and instant. */
  ghost predicate Traced(decisions: seq<Decision>, row: Intervention) {
    exists i :: && 0 <= i < |decisions| && decisions[i].id == row.decision && decisions[i].kind == Notice.ACTION_TYPE_NOTICE
                && decisions[i].mandate == row.mandate && decisions[i].ts == row.proposedAt
                && decisions[i].verdict == Judged(Gate.ALLOW)
  }

  ghost predicate AllTraced(db: Db) {
    forall id :: id in db.interventions ==> Traced(db.decisions, db.interventions[id])
  }

  lemma TracedMonotone(a: seq<Decision>, b: seq<Decision>, row: Intervention)
    requires Traced(a, row) && a <= b
    ensures Traced(b, row)
  {
    var i :| && 0 <= i < |a| && a[i].id == row.decision && a[i].kind == Notice.ACTION_TYPE_NOTICE
             && a[i].mandate == row.mandate && a[i].ts == row.proposedAt && a[i].verdict == Judged(Gate.ALLOW);
    assert b[i] == a[i];
  }

  /** Only a notice adds an intervention; the ledger only grows. */
  lemma OnlyNoticesIntervene(cfg: Config, w: World, s: Step)
    ensures w.db.decisions <= Next(cfg, w, s).db.decisions
    ensures !s.SendNotice? ==> Next(cfg, w, s).db.interventions == w.db.interventions
  {
    if Enabled(w, s) {
      match s
      case Fire(h, c) => FireAddsDecisions(cfg, w.db, h.action, c);
      case SendNotice(h, c) => Notice.NoticeRecords(w.db, h.action, c);
      case Settle(id, r) => SettleAddsNothing(w.db, id, r);
      case SettleQuery(id, r) => QueryAddsNothing(w.db, id, r);
      case _ => OthersAddNothing(cfg, w, s);
    }
  }

  lemma SettleAddsNothing(db: Db, id: nat, r: Response)
    requires id < |db.outbox|
    ensures var v := Relay.SettleSubmitted(db, id, r); v.decisions == db.decisions && v.interventions == db.interventions
  {}

  lemma QueryAddsNothing(db: Db, id: nat, r: Option<Response>)
    requires id < |db.outbox|
    ensures var v := Relay.SettleFetched(db, id, r); v.decisions == db.decisions && v.interventions == db.interventions
  {}

  lemma OthersAddNothing(cfg: Config, w: World, s: Step)
    requires Enabled(w, s) && !s.Fire? && !s.SendNotice? && !s.Settle? && !s.SettleQuery?
    ensures Next(cfg, w, s).db.decisions == w.db.decisions && Next(cfg, w, s).db.interventions == w.db.interventions
  {
    if s.Project? {
      ProjectAddsNothing(w.db, s.mandate, Projector.OfMandate(w.log[..s.upTo], s.mandate));
    } else {
      OthersKeepRows(cfg, w, s);
    }
  }

  lemma ProjectAddsNothing(db: Db, m: MandateId, events: seq<Event>)
    ensures var r := Projector.ApplyMandate(db, m, events);
            r.Some? ==> r.value.decisions == db.decisions && r.value.interventions == db.interventions
  {}

  lemma FireAddsDecisions(cfg: Config, db: Db, a: ClaimedAction, c: Firing.Conditions)
    ensures var r := Firing.Fire(cfg.digest, db, a, c).0; db.decisions <= r.decisions && r.interventions == db.interventions
  {}

  lemma StepKeepsTraced(cfg: Config, w: World, s: Step)
    requires AllTraced(w.db)
    ensures AllTraced(Next(cfg, w, s).db)
  {
    var v := Next(cfg, w, s);
    OnlyNoticesIntervene(cfg, w, s);
    if s.SendNotice? && Enabled(w, s) { Notice.NoticeRecords(w.db, s.held.action, s.notice); }
    forall id | id in v.db.interventions ensures Traced(v.db.decisions, v.db.interventions[id]) {
      if id in w.db.interventions {
        TracedMonotone(w.db.decisions, v.db.decisions, w.db.interventions[id]);
      } else {
        assert v.db.decisions[|w.db.decisions|] == Notice.NoticeEntry(s.held.action, s.notice);
      }
    }
  }

  /** In every run, every message sent to a person traces to the ledger decision that records it. */
  lemma {:induction false} EveryMessageIsRecorded(cfg: Config, w: World, steps: seq<Step>)
    requires AllTraced(w.db)
    ensures AllTraced(Run(cfg, w, steps).db)
    decreases steps
  {
    if steps != [] {
      StepKeepsTraced(cfg, w, steps[0]);
      EveryMessageIsRecorded(cfg, Next(cfg, w, steps[0]), steps[1..]);
    }
  }
}
