/** Durable timers: claiming, leases and release (prayas/executor/claiming.py). */
module Claiming {
  import opened Common
  import opened Projection
  import opened Tables


  datatype ClaimedAction = ClaimedAction(
    id: ActionId,
    cycle: Option<CycleId>,
    mandate: Option<MandateId>,
    kind: string,
    payloadAmount: Option<int>)

  function Claimed(id: ActionId, a: Action): ClaimedAction {
    ClaimedAction(id, a.cycle, a.mandate, a.kind, a.payloadAmount)
  }

  /** Due, not settled, and not under a lease that is still running. */
  predicate Eligible(a: Action, due: Time, now: Time) {
    && a.fireAt <= due
    && Live(a)
    && (a.lockedUntil.None? || a.lockedUntil.value < now)
  }

  function Stamp(a: Action, until: Time): Action {
    a.(state := ActionClaimed, lockedUntil := Some(until))
  }

  /**
   * One claim statement: every picked row gets the lease. Which rows it may pick is `IsClaim`; rows
   * that other transactions hold are skipped rather than waited for.
   */
  function ClaimRows(actions: map<ActionId, Action>, picked: seq<ActionId>, until: Time): map<ActionId, Action> {
    map id | id in actions :: if id in picked then Stamp(actions[id], until) else actions[id]
  }

  ghost predicate IsClaim(
    actions: map<ActionId, Action>, locked: set<ActionId>, due: Time, now: Time, batch: nat, picked: seq<ActionId>)
  {
    && |picked| <= batch
    && (forall i :: 0 <= i < |picked| ==>
          picked[i] in actions && picked[i] !in locked && Eligible(actions[picked[i]], due, now))
    && (forall i, j :: 0 <= i < j < |picked| ==>
          picked[i] != picked[j] && actions[picked[i]].fireAt <= actions[picked[j]].fireAt)
    && (forall id :: id in actions && id !in locked && id !in picked && Eligible(actions[id], due, now) ==>
          |picked| == batch && forall i :: 0 <= i < |picked| ==> actions[picked[i]].fireAt <= actions[id].fireAt)
  }

  /** Under a lease that is still running, or settled. */
  predicate Shielded(a: Action, now: Time) {
    !Live(a) || (a.lockedUntil.Some? && now <= a.lockedUntil.value)
  }

  /** A live lease shields its row from every claim; a settled row is never claimed again. */
  lemma LeaseShields(
    actions: map<ActionId, Action>, locked: set<ActionId>, due: Time, now: Time, batch: nat, picked: seq<ActionId>, until: Time)
    requires IsClaim(actions, locked, due, now, batch, picked)
    ensures forall id :: id in actions && Shielded(actions[id], now) ==>
              id !in picked && ClaimRows(actions, picked, until)[id] == actions[id]
  {
    forall id | id in actions && Shielded(actions[id], now) ensures id !in picked {
      assert !Eligible(actions[id], due, now);
    }
  }

  /** Stamps the picked rows and returns what the statement's RETURNING clause hands the worker. */
  method ClaimDueActions(
      conn: TenantDb, ghost locked: set<ActionId>, ghost due: Time, now: Time, batch: nat, lease: nat,
      picked: seq<ActionId>)
    returns (claimed: seq<ClaimedAction>)
    requires IsClaim(conn.actions, locked, due, now, batch, picked)
    modifies conn
    ensures conn.Snapshot() == old(conn.Snapshot()).(actions := ClaimRows(old(conn.actions), picked, now + lease))
    ensures |claimed| == |picked|
    ensures forall i :: 0 <= i < |picked| ==> claimed[i] == Claimed(picked[i], old(conn.actions)[picked[i]])
    ensures forall i :: 0 <= i < |picked| ==>
              var row := old(conn.actions)[picked[i]];
              && claimed[i] == ClaimedAction(picked[i], row.cycle, row.mandate, row.kind, row.payloadAmount)
              && conn.actions[picked[i]] == row.(state := ActionClaimed, lockedUntil := Some(now + lease))
    ensures forall id :: id in old(conn.actions) && Shielded(old(conn.actions)[id], now) ==>
              conn.actions[id] == old(conn.actions)[id]
  {
    LeaseShields(conn.actions, locked, due, now, batch, picked, now + lease);
    claimed := [];
    ghost var before := conn.actions;
    for k := 0 to |picked|
      invariant conn.mandates == old(conn.mandates) && conn.cycles == old(conn.cycles)
      invariant conn.attempts == old(conn.attempts) && conn.outbox == old(conn.outbox)
      invariant conn.decisions == old(conn.decisions) && conn.interventions == old(conn.interventions)
      invariant conn.actions == ClaimRows(before, picked[..k], now + lease)
      invariant |claimed| == k
      invariant forall i :: 0 <= i < k ==> claimed[i] == Claimed(picked[i], before[picked[i]])
    {
      var id := picked[k];
      assert id !in picked[..k];
      claimed := claimed + [Claimed(id, conn.actions[id])];
      conn.actions := conn.actions[id := Stamp(conn.actions[id], now + lease)];
      assert picked[..k + 1] == picked[..k] + [id];
    }
    assert picked[..|picked|] == picked;
  }

  method ReleaseAction(conn: TenantDb, id: ActionId, state: ActionState)
    modifies conn
    ensures conn.Snapshot() == Release(old(conn.Snapshot()), id, state)
  {
    if id in conn.actions {
      conn.actions := conn.actions[id := conn.actions[id].(state := state, lockedUntil := None)];
    }
  }

  /** Cancels what is pending or claimed for a cycle; what is done stays done. */
  function CancelForCycle(actions: map<ActionId, Action>, cycle: CycleId): map<ActionId, Action> {
    map id | id in actions ::
      if actions[id].cycle == Some(cycle) && Live(actions[id])
      then actions[id].(state := ActionCancelled, lockedUntil := None)
      else actions[id]
  }

  /** A claimed row can be claimed again exactly when its lease has run out: a dead worker's rows are picked up. */
  lemma ClaimedAgainExactly(actions: map<ActionId, Action>, picked: seq<ActionId>, until: Time, id: ActionId, due: Time, now: Time)
    requires id in picked && id in actions
    ensures Eligible(ClaimRows(actions, picked, until)[id], due, now) <==> actions[id].fireAt <= due && until < now
    ensures Shielded(ClaimRows(actions, picked, until)[id], now) <==> now <= until
  {}

  /**
   * Once a cycle's actions are cancelled none of them can be claimed, now or later; what was done stays done, and the
   * actions of other cycles are as they were.
   */
  lemma CancelledForGood(actions: map<ActionId, Action>, cycle: CycleId, id: ActionId)
    requires id in actions
    ensures var after := CancelForCycle(actions, cycle);
            && after.Keys == actions.Keys
            && (actions[id].cycle != Some(cycle) || actions[id].state == ActionDone ==> after[id] == actions[id])
            && (actions[id].cycle == Some(cycle) ==>
                  && (forall due, now :: !Eligible(after[id], due, now))
                  && (after[id].state == ActionDone <==> actions[id].state == ActionDone)
                  && after[id] == actions[id].(state := after[id].state, lockedUntil := after[id].lockedUntil)
                  && (actions[id].state == ActionPending || actions[id].state == ActionClaimed ==>
                        after[id].state == ActionCancelled && after[id].lockedUntil.None?))
  {}
}

/** The fire transaction (prayas/executor/firing.py). */
module Firing {
  import opened Common
  import opened States
  import opened Projection
  import opened Tables
  import opened Claiming
  import Gate
  import IdemKey

  datatype Staleness = MandateNotActive | CycleSettled | PastDeadline | BudgetSpent | AmountChanged

  datatype FireOutcome =
    | NoCycle | CycleMissing | Killed | StageForbidsFiring
    | RefusedStale(reason: Staleness)
    | BudgetDenied
    | GateDenied(verdict: Gate.Verdict)
    | Fired(key: Key)
    | Aborted

  /** What the transaction reads from outside the modelled tables, at fire time. */
  datatype Conditions = Conditions(
    decisionId: string,
    now: Time,
    stopped: bool,
    mayFire: bool,
    reading: Gate.RuleReading)

  function Revalidate(mandate: MandateState, cycle: Cycle, action: ClaimedAction, now: Time): Option<Staleness> {
    if mandate != Active then Some(MandateNotActive)
    else if cycle.state in SETTLED_CYCLE_STATES then Some(CycleSettled)
    else if now > cycle.deadline then Some(PastDeadline)
    else if cycle.used >= cycle.budget then Some(BudgetSpent)
    else if action.payloadAmount.Some? && action.payloadAmount.value != cycle.amount then Some(AmountChanged)
    else None
  }

  function Entry(
    cycleId: CycleId, cycle: Cycle, action: ClaimedAction, c: Conditions,
    verdict: LedgerVerdict, checks: seq<Gate.Check>, degraded: bool, chosen: Option<Key>): Decision
  {
    Decision(c.decisionId, c.now, cycle.mandate, cycleId, action.kind, verdict, checks, degraded, chosen)
  }

  function RequestOf(cycleId: CycleId, cycle: Cycle, action: ClaimedAction, c: Conditions): Request {
    Request(cycle.mandate, cycleId, cycle.amount, action.kind, c.decisionId)
  }

  function Key(digest: string -> string, cycleId: CycleId, cycle: Cycle, action: ClaimedAction): Option<Key> {
    IdemKey.Derive(digest, IdemKey.Identity(cycleId, cycle.used + 1, action.kind, cycle.amount))
  }

  predicate Joined(db: Db, cycleId: CycleId) {
    cycleId in db.cycles && db.cycles[cycleId].mandate in db.mandates
  }

  /** The whole transaction. An exception anywhere rolls it back: the tables as they were, `Aborted`. */
  function Fire(digest: string -> string, db: Db, action: ClaimedAction, c: Conditions): (Db, FireOutcome) {
    if action.cycle.None? then (db, NoCycle)
    else if !Joined(db, action.cycle.value) then (Release(db, action.id, ActionCancelled), CycleMissing)
    else if c.stopped then (Release(db, action.id, ActionCancelled), Killed)
    else if !c.mayFire then (Release(db, action.id, ActionCancelled), StageForbidsFiring)
    else
      var id := action.cycle.value;
      var cycle := db.cycles[id];
      var stale := Revalidate(db.mandates[cycle.mandate], cycle, action, c.now);
      if stale.Some? then
        (Release(Record(db, Entry(id, cycle, action, c, Stale, [], false, None)), action.id, ActionCancelled),
         RefusedStale(stale.value))
      else
        var key := Key(digest, id, cycle, action);
        var gate := Gate.Evaluate(c.reading);
        if key.None? then (db, Aborted)
        else if cycle.used >= cycle.budget then
          (Release(Record(db, Entry(id, cycle, action, c, Judged(Gate.DENY), [], false, None)), action.id, ActionDone),
           BudgetDenied)
        else if !gate.Allowed() then
          (Release(Record(db, Entry(id, cycle, action, c, Judged(gate.verdict), gate.checks, gate.degraded, None)),
                   action.id, ActionCancelled),
           GateDenied(gate.verdict))
        else Committed(db, id, action, c, gate, key.value)
  }

  /** The writes of a firing: the licence, the attempt and its outbox row, and the claim released. */
  function Committed(
    db: Db, id: CycleId, action: ClaimedAction, c: Conditions, gate: Gate.GateResult, key: Key): (Db, FireOutcome)
    requires id in db.cycles
  {
    var cycle := db.cycles[id];
    var attempts := InsertAttempt(db.attempts, Attempt(id, cycle.used + 1, key, AttemptFired, c.decisionId));
    if attempts.None? then (db, Aborted)
    else
      var entry := Entry(id, cycle, action, c, Judged(Gate.ALLOW), gate.checks, gate.degraded, Some(key));
      (Release(db.(cycles := db.cycles[id := cycle.(used := cycle.used + 1)],
                   decisions := db.decisions + [entry],
                   attempts := attempts.value,
                   outbox := InsertOutbox(db.outbox, OutboxRow(key, RequestOf(id, cycle, action, c), OutboxPending, 0))),
               action.id, ActionDone),
       Fired(key))
  }

  method Append(conn: TenantDb, d: Decision)
    modifies conn
    ensures conn.Snapshot() == Record(old(conn.Snapshot()), d)
  {
    conn.decisions := conn.decisions + [d];
  }

  method FireAction(conn: TenantDb, digest: string -> string, action: ClaimedAction, c: Conditions)
    returns (outcome: FireOutcome)
    modifies conn
    ensures (conn.Snapshot(), outcome) == Fire(digest, old(conn.Snapshot()), action, c)
  {
    if action.cycle.None? { return NoCycle; }
    var id := action.cycle.value;
    if !Joined(conn.Snapshot(), id) {
      ReleaseAction(conn, action.id, ActionCancelled);
      return CycleMissing;
    }
    if c.stopped {
      ReleaseAction(conn, action.id, ActionCancelled);
      return Killed;
    }
    if !c.mayFire {
      ReleaseAction(conn, action.id, ActionCancelled);
      return StageForbidsFiring;
    }

    var cycle := conn.cycles[id];
    var stale := Revalidate(conn.mandates[cycle.mandate], cycle, action, c.now);
    if stale.Some? {
      Append(conn, Entry(id, cycle, action, c, Stale, [], false, None));
      ReleaseAction(conn, action.id, ActionCancelled);
      return RefusedStale(stale.value);
    }

    var key := Key(digest, id, cycle, action);
    if key.None? { return Aborted; }

    var savepoint := conn.cycles;
    var rowcount := 0;
    if conn.cycles[id].used < conn.cycles[id].budget {
      conn.cycles := conn.cycles[id := conn.cycles[id].(used := conn.cycles[id].used + 1)];
      rowcount := 1;
    }
    if rowcount != 1 {
      // Revalidation under the same row lock has already refused a spent budget.
      assert false;
    }

    var gate := Gate.Evaluate(c.reading);
    if !gate.Allowed() {
      conn.cycles := savepoint;
      Append(conn, Entry(id, cycle, action, c, Judged(gate.verdict), gate.checks, gate.degraded, None));
      ReleaseAction(conn, action.id, ActionCancelled);
      return GateDenied(gate.verdict);
    }

    outcome := Commit(conn, savepoint, id, action, c, gate, key.value);
  }

  /** The part after the gate's ALLOW, with the budget already taken since the savepoint. */
  method Commit(
    conn: TenantDb, savepoint: map<CycleId, Cycle>, id: CycleId, action: ClaimedAction, c: Conditions,
    gate: Gate.GateResult, key: Key) returns (outcome: FireOutcome)
    requires id in savepoint
    requires conn.cycles == savepoint[id := savepoint[id].(used := savepoint[id].used + 1)]
    modifies conn
    ensures (conn.Snapshot(), outcome) == Committed(old(conn.Snapshot()).(cycles := savepoint), id, action, c, gate, key)
  {
    var cycle, decisions := savepoint[id], conn.decisions;
    Append(conn, Entry(id, cycle, action, c, Judged(Gate.ALLOW), gate.checks, gate.degraded, Some(key)));
    var attempts := InsertAttempt(conn.attempts, Attempt(id, cycle.used + 1, key, AttemptFired, c.decisionId));
    if attempts.None? {
      conn.cycles, conn.decisions := savepoint, decisions;
      return Aborted;
    }
    conn.attempts := attempts.value;
    conn.outbox := InsertOutbox(conn.outbox, OutboxRow(key, RequestOf(id, cycle, action, c), OutboxPending, 0));
    ReleaseAction(conn, action.id, ActionDone);
    return Fired(key);
  }

  /**
   * Every outcome but a firing leaves cycles, attempts and outbox exactly as they were, although the
   * budget is decremented before the gate is asked; and what a refusal records names no key.
   */
  lemma RefusalSpendsNothing(digest: string -> string, db: Db, action: ClaimedAction, c: Conditions)
    requires !Fire(digest, db, action, c).1.Fired?
    ensures var r := Fire(digest, db, action, c).0;
            && r.cycles == db.cycles && r.attempts == db.attempts && r.outbox == db.outbox
            && r.mandates == db.mandates && r.interventions == db.interventions
            && (forall i :: |db.decisions| <= i < |r.decisions| ==> r.decisions[i].chosenKey.None?)
            && (r.decisions == db.decisions || r.decisions[..|r.decisions| - 1] == db.decisions)
  {
    RefusalShape(digest, db, action, c);
  }

  lemma RefusalShape(digest: string -> string, db: Db, action: ClaimedAction, c: Conditions)
    requires !Fire(digest, db, action, c).1.Fired?
    ensures var r := Fire(digest, db, action, c).0;
            && r == db.(actions := r.actions, decisions := r.decisions)
            && (r.decisions == db.decisions ||
                (|r.decisions| == |db.decisions| + 1 && r.decisions[..|db.decisions|] == db.decisions
                 && r.decisions[|db.decisions|].chosenKey.None?))
  {}

  /**
   * What a firing asks of the rail, and under which key: the cycle's own amount and mandate, for the action's kind; the
   * key is derived from the cycle, the number of this attempt, that kind and that amount.
   */
  lemma FiredAsks(digest: string -> string, db: Db, action: ClaimedAction, c: Conditions)
    requires Fire(digest, db, action, c).1.Fired?
    ensures action.cycle.Some? && action.cycle.value in db.cycles
    ensures var (r, outcome) := Fire(digest, db, action, c);
            var id := action.cycle.value;
            var cycle := db.cycles[id];
            && IdemKey.Derive(digest, IdemKey.Identity(id, cycle.used + 1, action.kind, cycle.amount)) == Some(outcome.key)
            && (r.outbox == db.outbox
                || r.outbox == db.outbox + [OutboxRow(outcome.key,
                     Request(cycle.mandate, id, cycle.amount, action.kind, c.decisionId), OutboxPending, 0)])
            && (r.attempts == db.attempts
                || r.attempts == db.attempts + [Attempt(id, cycle.used + 1, outcome.key, AttemptFired, c.decisionId)])
            && r.cycles == db.cycles[id := cycle.(used := cycle.used + 1)]
  {}

  /**
   * From the scheduled row to the charge: what a worker fires for a row it has claimed is for the row's own cycle and of
   * its own kind, and at the amount the row was scheduled with, if it carries one.
   */
  lemma FiredRow(digest: string -> string, db: Db, id: ActionId, row: Action, c: Conditions)
    requires Fire(digest, db, Claimed(id, row), c).1.Fired?
    ensures row.cycle.Some? && row.cycle.value in db.cycles
    ensures var (r, outcome) := Fire(digest, db, Claimed(id, row), c);
            var cycle := db.cycles[row.cycle.value];
            && (row.payloadAmount.Some? ==> row.payloadAmount.value == cycle.amount)
            && (r.outbox == db.outbox
                || r.outbox == db.outbox + [OutboxRow(outcome.key,
                     Request(cycle.mandate, row.cycle.value, cycle.amount, row.kind, c.decisionId), OutboxPending, 0)])
            && (id in db.actions ==> r.actions[id].state == ActionDone)
  {
    FiredAsks(digest, db, Claimed(id, row), c);
  }

  /** The transaction touches one action row: its own, which it settles. */
  lemma FireSettlesOwnAction(digest: string -> string, db: Db, action: ClaimedAction, c: Conditions)
    ensures var (r, outcome) := Fire(digest, db, action, c);
            && r.actions.Keys == db.actions.Keys
            && (forall id :: id in db.actions && id != action.id ==> r.actions[id] == db.actions[id])
            && (action.id in db.actions && outcome != NoCycle && outcome != Aborted ==> !Live(r.actions[action.id]))
            && (outcome == NoCycle || outcome == Aborted ==> r.actions == db.actions)
  {}

  /** Which outcomes leave a ledger record. */
  predicate Recorded(outcome: FireOutcome) {
    outcome.RefusedStale? || outcome.BudgetDenied? || outcome.GateDenied? || outcome.Fired?
  }

  /** What the entry of each recorded outcome is made of. */
  lemma RecordedEntry(digest: string -> string, db: Db, action: ClaimedAction, c: Conditions)
    requires Recorded(Fire(digest, db, action, c).1)
    ensures action.cycle.Some? && action.cycle.value in db.cycles
    ensures var (r, outcome) := Fire(digest, db, action, c);
            var id, gate := action.cycle.value, Gate.Evaluate(c.reading);
            r.decisions == db.decisions + [
              if outcome.RefusedStale? then Entry(id, db.cycles[id], action, c, Stale, [], false, None)
              else if outcome.Fired? then
                Entry(id, db.cycles[id], action, c, Judged(Gate.ALLOW), gate.checks, gate.degraded, Some(outcome.key))
              else Entry(id, db.cycles[id], action, c, Judged(gate.verdict), gate.checks, gate.degraded, None)]
    ensures Fire(digest, db, action, c).1.Fired? <==>
              !Fire(digest, db, action, c).1.RefusedStale? && Gate.Evaluate(c.reading).Allowed()
  {}

  /**
   * What is left behind tells what happened: a refusal by revalidation or gate, and a firing, add one
   * decision that says so; every other outcome adds none.
   */
  lemma RecordsTellOutcome(digest: string -> string, db: Db, action: ClaimedAction, c: Conditions)
    ensures var (r, outcome) := Fire(digest, db, action, c);
            && (!Recorded(outcome) ==> r.decisions == db.decisions)
            && (Recorded(outcome) ==>
                  && |r.decisions| == |db.decisions| + 1 && r.decisions[..|db.decisions|] == db.decisions
                  && action.cycle.Some? && action.cycle.value in db.cycles
                  && (var d := r.decisions[|db.decisions|];
                      && d.id == c.decisionId && d.ts == c.now && d.cycle == action.cycle.value && d.kind == action.kind
                      && d.mandate == db.cycles[action.cycle.value].mandate
                      && (d.verdict == Stale <==> outcome.RefusedStale?)
                      && (d.verdict == Judged(Gate.ALLOW) <==> outcome.Fired?)
                      && d.chosenKey == (if outcome.Fired? then Some(outcome.key) else None)
                      && (d.verdict.Judged? ==> d.verdict.verdict == Gate.Evaluate(c.reading).verdict)
                      && d.degraded == (d.verdict.Judged? && Gate.Evaluate(c.reading).degraded)
                      && d.checks == if d.verdict.Judged? then Gate.Evaluate(c.reading).checks else []))
  {
    if Recorded(Fire(digest, db, action, c).1) { RecordedEntry(digest, db, action, c); }
  }

  /** And the action: done exactly when it fired, cancelled when it was refused, untouched when nothing was committed. */
  lemma ActionTellsOutcome(digest: string -> string, db: Db, action: ClaimedAction, c: Conditions)
    requires action.id in db.actions
    ensures var (r, outcome) := Fire(digest, db, action, c);
            && action.id in r.actions
            && (outcome == NoCycle || outcome == Aborted ==> r.actions[action.id] == db.actions[action.id])
            && (outcome != NoCycle && outcome != Aborted ==>
                  r.actions[action.id].state == (if outcome.Fired? then ActionDone else ActionCancelled)
                  && r.actions[action.id].lockedUntil.None?)
  {}

  /** The denial the source writes for a rowcount of zero cannot happen: revalidation refuses first. */
  lemma BudgetDenialUnreachable(digest: string -> string, db: Db, action: ClaimedAction, c: Conditions)
    ensures Fire(digest, db, action, c).1 != BudgetDenied
  {}

  /** Exactly when an action fires: everything revalidation, the key, the gate and the schema ask for. */
  lemma FiresExactlyWhen(digest: string -> string, db: Db, action: ClaimedAction, c: Conditions)
    ensures Fire(digest, db, action, c).1.Fired? <==>
      && action.cycle.Some? && Joined(db, action.cycle.value) && !c.stopped && c.mayFire
      && (var cycle := db.cycles[action.cycle.value];
          && db.mandates[cycle.mandate] == Active
          && cycle.state !in SETTLED_CYCLE_STATES
          && c.now <= cycle.deadline
          && cycle.used < cycle.budget
          && (action.payloadAmount.None? || action.payloadAmount.value == cycle.amount)
          && (var key := Key(digest, action.cycle.value, cycle, action);
              && key.Some?
              && (HasKey(db.attempts, key.value) || !HasSeq(db.attempts, action.cycle.value, cycle.used + 1)))
          && Gate.Evaluate(c.reading).Allowed())
  {}

  /** A stale refusal names a cause that holds, and one that nothing checked before it explains. */
  lemma StaleNamesItsCause(digest: string -> string, db: Db, action: ClaimedAction, c: Conditions)
    requires Fire(digest, db, action, c).1.RefusedStale?
    ensures action.cycle.Some? && Joined(db, action.cycle.value)
    ensures var reason := Fire(digest, db, action, c).1.reason;
            var cycle := db.cycles[action.cycle.value];
            var revoked, settled := db.mandates[cycle.mandate] != Active, cycle.state in SETTLED_CYCLE_STATES;
            var late, spent := c.now > cycle.deadline, cycle.used >= cycle.budget;
            && (reason == MandateNotActive <==> revoked)
            && (reason == CycleSettled <==> !revoked && settled)
            && (reason == PastDeadline <==> !revoked && !settled && late)
            && (reason == BudgetSpent <==> !revoked && !settled && !late && spent)
            && (reason == AmountChanged ==> action.payloadAmount.Some? && action.payloadAmount.value != cycle.amount)
  {}

  /** An action without a cycle is answered without being released, so its lease only has to run out. */
  lemma NoCycleKeepsItsClaim(digest: string -> string, db: Db, action: ClaimedAction, c: Conditions, due: Time)
    requires action.cycle.None? && action.id in db.actions
    ensures Fire(digest, db, action, c) == (db, NoCycle)
    ensures var row := db.actions[action.id];
            Live(row) && row.fireAt <= due && row.lockedUntil.Some? ==>
              Eligible(Fire(digest, db, action, c).0.actions[action.id], due, row.lockedUntil.value + 1)
  {}
}

/** The pre-debit notice transaction (prayas/executor/notice.py). */
module Notice {
  import opened Common
  import opened States
  import opened Projection
  import opened Tables
  import opened Claiming
  import opened Firing
  import Gate

  const ACTION_TYPE_NOTICE: string := "pdn_notice"

  datatype NoticeOutcome =
    | NoticeWithoutCycle | UnknownCycle | NoticeCycleSettled | AlreadySent
    | NoticeGateDenied(verdict: Gate.Verdict) | Suppressed | Sent | NoticeAborted

  datatype NoticeConditions = NoticeConditions(
    decisionId: string, now: Time, reading: Gate.RuleReading, suppressed: bool)

  function NoticeEntry(action: ClaimedAction, c: NoticeConditions): Decision
    requires action.cycle.Some? && action.mandate.Some?
  {
    Decision(c.decisionId, c.now, action.mandate.value, action.cycle.value, ACTION_TYPE_NOTICE,
             Judged(Gate.ALLOW), [], false, None)
  }

  /**
   * The whole transaction. A rule store that cannot be read has failed the transaction, and there is no savepoint
   * to go back to: the gate's denial cannot be committed, and everything is rolled back.
   */
  function FireNotice(db: Db, action: ClaimedAction, c: NoticeConditions): (Db, NoticeOutcome) {
    if action.cycle.None? || action.mandate.None? then
      (Release(db, action.id, ActionCancelled), NoticeWithoutCycle)
    else if !Joined(db, action.cycle.value) then
      (Release(db, action.id, ActionCancelled), UnknownCycle)
    else
      var id := action.cycle.value;
      var cycle := db.cycles[id];
      if cycle.state != Executing && cycle.state != Scheduled then
        (Release(db, action.id, ActionCancelled), NoticeCycleSettled)
      else if cycle.pdnSentAt.Some? then
        (Release(db, action.id, ActionDone), AlreadySent)
      else if c.reading.None? then
        (db, NoticeAborted)
      else if !Gate.Evaluate(c.reading).Allowed() then
        (Release(db, action.id, ActionCancelled), NoticeGateDenied(Gate.Evaluate(c.reading).verdict))
      else if c.suppressed then
        (Release(db, action.id, ActionCancelled), Suppressed)
      else
        var noticed := Record(db.(cycles := db.cycles[id := cycle.(pdnSentAt := Some(c.now))]), NoticeEntry(action, c));
        var intervention := Intervention(action.mandate.value, c.now, c.decisionId);
        (Release(noticed.(interventions := InsertIntervention(db.interventions, action.id, intervention)),
                 action.id, ActionDone),
         Sent)
  }

  method SendNotice(conn: TenantDb, action: ClaimedAction, c: NoticeConditions) returns (outcome: NoticeOutcome)
    modifies conn
    ensures (conn.Snapshot(), outcome) == FireNotice(old(conn.Snapshot()), action, c)
  {
    if action.cycle.None? || action.mandate.None? {
      ReleaseAction(conn, action.id, ActionCancelled);
      return NoticeWithoutCycle;
    }
    var id := action.cycle.value;
    if !Joined(conn.Snapshot(), id) {
      ReleaseAction(conn, action.id, ActionCancelled);
      return UnknownCycle;
    }
    var cycle := conn.cycles[id];
    if cycle.state != Executing && cycle.state != Scheduled {
      ReleaseAction(conn, action.id, ActionCancelled);
      return NoticeCycleSettled;
    }
    if cycle.pdnSentAt.Some? {
      ReleaseAction(conn, action.id, ActionDone);
      return AlreadySent;
    }
    if c.reading.None? { return NoticeAborted; }
    var messaging := Gate.Evaluate(c.reading);
    if !messaging.Allowed() {
      ReleaseAction(conn, action.id, ActionCancelled);
      return NoticeGateDenied(messaging.verdict);
    }
    if c.suppressed {
      ReleaseAction(conn, action.id, ActionCancelled);
      return Suppressed;
    }
    conn.cycles := conn.cycles[id := cycle.(pdnSentAt := Some(c.now))];
    Append(conn, NoticeEntry(action, c));
    conn.interventions := InsertIntervention(
      conn.interventions, action.id, Intervention(action.mandate.value, c.now, c.decisionId));
    ReleaseAction(conn, action.id, ActionDone);
    return Sent;
  }

  /** The notice transaction touches one action row, its own, and settles it unless it is rolled back. */
  lemma NoticeSettlesOwnAction(db: Db, action: ClaimedAction, c: NoticeConditions)
    ensures var (r, outcome) := FireNotice(db, action, c);
            && r.actions.Keys == db.actions.Keys
            && (forall id :: id in db.actions && id != action.id ==> r.actions[id] == db.actions[id])
            && (action.id in db.actions && outcome != NoticeAborted ==> !Live(r.actions[action.id]))
            && (outcome == NoticeAborted ==> r == db)
  {}

  /**
   * One unreadable rule store, two ends: the debit is refused, settled and recorded as a degraded denial; the notice
   * for the same cycle raises, and its claim stays under its lease.
   */
  lemma UnreadableRulesStopNotices(
    digest: string -> string, db: Db, debit: ClaimedAction, action: ClaimedAction, f: Conditions, c: NoticeConditions)
    requires f.reading.None? && c.reading.None?
    requires action.cycle.Some? && action.mandate.Some? && Joined(db, action.cycle.value)
    requires db.cycles[action.cycle.value].state in {Scheduled, Executing} && db.cycles[action.cycle.value].pdnSentAt.None?
    requires debit.cycle == action.cycle && debit.id in db.actions && !f.stopped && f.mayFire
    requires Revalidate(db.mandates[db.cycles[action.cycle.value].mandate], db.cycles[action.cycle.value], debit, f.now).None?
    requires Firing.Key(digest, action.cycle.value, db.cycles[action.cycle.value], debit).Some?
    ensures FireNotice(db, action, c) == (db, NoticeAborted)
    ensures var (r, outcome) := Fire(digest, db, debit, f);
            && outcome == GateDenied(Gate.DENY) && !Live(r.actions[debit.id])
            && |r.decisions| == |db.decisions| + 1 && r.decisions[|db.decisions|].degraded
  {}

  /** Everything but a notice that is sent leaves all tables but the action's row alone. */
  lemma UnsentChangesNothing(db: Db, action: ClaimedAction, c: NoticeConditions)
    requires FireNotice(db, action, c).1 != Sent
    ensures FireNotice(db, action, c).0 == db.(actions := FireNotice(db, action, c).0.actions)
  {}

  lemma SentChanges(db: Db, action: ClaimedAction, c: NoticeConditions)
    requires FireNotice(db, action, c).1 == Sent
    ensures var r := FireNotice(db, action, c).0;
            && action.cycle.Some? && action.cycle.value in db.cycles && db.cycles[action.cycle.value].pdnSentAt.None?
            && r.cycles == db.cycles[action.cycle.value := db.cycles[action.cycle.value].(pdnSentAt := Some(c.now))]
            && r == db.(cycles := r.cycles, actions := r.actions, decisions := r.decisions, interventions := r.interventions)
            && |r.decisions| == |db.decisions| + 1
  {}

  /** A notice spends no budget and reaches no rail; it sets the instant once, only when it was sent. */
  lemma NoticeSpendsNothing(db: Db, action: ClaimedAction, c: NoticeConditions)
    ensures var (r, outcome) := FireNotice(db, action, c);
            && r.attempts == db.attempts && r.outbox == db.outbox && r.mandates == db.mandates
            && r.cycles.Keys == db.cycles.Keys
            && (forall id :: id in db.cycles ==> r.cycles[id].(pdnSentAt := None) == db.cycles[id].(pdnSentAt := None))
            && (forall id :: id in db.cycles && r.cycles[id] != db.cycles[id] ==>
                  outcome == Sent && action.cycle == Some(id) && db.cycles[id].pdnSentAt.None?
                  && r.cycles[id].pdnSentAt == Some(c.now))
            && (outcome == Sent <==> r.decisions != db.decisions)
  {
    var r, outcome := FireNotice(db, action, c).0, FireNotice(db, action, c).1;
    if outcome == Sent {
      SentChanges(db, action, c);
    } else {
      UnsentChangesNothing(db, action, c);
    }
  }

  /** Exactly when a message leaves: the cycle still waits for its notice, every messaging rule allows it, nobody objected. */
  lemma SentExactlyWhen(db: Db, action: ClaimedAction, c: NoticeConditions)
    ensures FireNotice(db, action, c).1 == Sent <==>
      && action.cycle.Some? && action.mandate.Some? && Joined(db, action.cycle.value)
      && (var cycle := db.cycles[action.cycle.value]; cycle.state in {Scheduled, Executing} && cycle.pdnSentAt.None?)
      && c.reading.Some? && c.reading.value != []
      && (forall i :: 0 <= i < |c.reading.value| ==>
            c.reading.value[i].1.Passed? || c.reading.value[i].0.onFail == Gate.Known(Gate.ALLOW))
      && !c.suppressed
  {
    Gate.AllowedExactlyWhen(c.reading);
  }

  /** What a sent notice leaves in the ledger, and the row it is done with. */
  lemma SentTells(db: Db, action: ClaimedAction, c: NoticeConditions)
    requires FireNotice(db, action, c).1 == Sent
    ensures action.cycle.Some? && action.mandate.Some? && action.cycle.value in db.cycles
    ensures var r := FireNotice(db, action, c).0;
            && r.decisions == db.decisions + [Decision(c.decisionId, c.now, action.mandate.value, action.cycle.value,
                                                       "pdn_notice", Judged(Gate.ALLOW), [], false, None)]
            && r.cycles == db.cycles[action.cycle.value := db.cycles[action.cycle.value].(pdnSentAt := Some(c.now))]
            && r.interventions.Keys == db.interventions.Keys + {action.id}
            && (forall id :: id in db.interventions ==> r.interventions[id] == db.interventions[id])
            && (action.id !in db.interventions ==>
                  r.interventions[action.id] == Intervention(action.mandate.value, c.now, c.decisionId))
  {}

  /** The claim ends as done when the customer has been told, now or before, and cancelled when it is not to happen. */
  lemma NoticeActionTellsOutcome(db: Db, action: ClaimedAction, c: NoticeConditions)
    requires action.id in db.actions
    ensures var (r, outcome) := FireNotice(db, action, c);
            && action.id in r.actions
            && (outcome == NoticeAborted ==> r.actions[action.id] == db.actions[action.id])
            && (outcome != NoticeAborted ==>
                  r.actions[action.id].state == (if outcome == Sent || outcome == AlreadySent then ActionDone else ActionCancelled)
                  && r.actions[action.id].lockedUntil.None?)
  {}

  /** A notice that was sent leaves its decision and, once per action, its intervention; any other leaves neither. */
  lemma NoticeRecords(db: Db, action: ClaimedAction, c: NoticeConditions)
    ensures var (r, outcome) := FireNotice(db, action, c);
            if outcome != Sent then r.decisions == db.decisions && r.interventions == db.interventions
            else
              && action.cycle.Some? && action.mandate.Some? && r.decisions == db.decisions + [NoticeEntry(action, c)]
              && r.interventions == InsertIntervention(db.interventions, action.id,
                                                       Intervention(action.mandate.value, c.now, c.decisionId))
  {}
}

/** The outbox relay's own transactions (prayas/executor/outbox.py). */
module Relay {
  import opened Common
  import opened Tables
  import opened Provider

  const MAX_RELAY_ATTEMPTS: nat := 5

  /** Settling is unconditional: whatever state the row is in, it becomes this one. */
  function SettleRow(outbox: seq<OutboxRow>, id: nat, state: OutboxState): seq<OutboxRow>
    requires id < |outbox|
  {
    outbox[id := outbox[id].(state := state, attempts := outbox[id].attempts + 1)]
  }

  function SettleAs(db: Db, id: nat, row: OutboxState, attempt: AttemptState): Db
    requires id < |db.outbox|
  {
    db.(outbox := SettleRow(db.outbox, id, row), attempts := MarkAttempts(db.attempts, db.outbox[id].key, attempt))
  }

  /** The transaction that follows a submission. */
  function SettleSubmitted(db: Db, id: nat, r: Response): Db
    requires id < |db.outbox|
  {
    match r
    case Accepted(_) => SettleAs(db, id, OutboxSent, AttemptFired)
    case Declined(_) => SettleAs(db, id, OutboxSent, AttemptFailed)
    case Ambiguous => SettleAs(db, id, OutboxAmbiguous, AttemptAmbiguous)
    case Retriable => db.(outbox := db.outbox[id := db.outbox[id].(attempts := db.outbox[id].attempts + 1)])
  }

  /** The transaction that follows a query; no record at the provider counts as a decline. */
  function SettleFetched(db: Db, id: nat, fetched: Option<Response>): Db
    requires id < |db.outbox|
  {
    match fetched
    case Some(Ambiguous) => db
    case Some(Accepted(_)) => SettleAs(db, id, OutboxSent, AttemptFired)
    case _ => SettleAs(db, id, OutboxSent, AttemptFailed)
  }

  /** Every answer counts against the row it settles, and no other; its attempt is told what the answer was. */
  lemma AnswerCounts(db: Db, id: nat, r: Response)
    requires id < |db.outbox|
    ensures var after := SettleSubmitted(db, id, r);
            var key := db.outbox[id].key;
            && |after.outbox| == |db.outbox| && after.outbox[id].attempts == db.outbox[id].attempts + 1
            && (forall i :: 0 <= i < |db.outbox| && i != id ==> after.outbox[i] == db.outbox[i])
            && (after.outbox[id].state == OutboxSent <==> Definitive(r) || (r.Retriable? && db.outbox[id].state == OutboxSent))
            && |after.attempts| == |db.attempts|
            && (forall i :: 0 <= i < |db.attempts| && (db.attempts[i].key != key || r.Retriable?) ==> after.attempts[i] == db.attempts[i])
            && (forall i :: 0 <= i < |db.attempts| && db.attempts[i].key == key && !r.Retriable? ==>
                  after.attempts[i].state ==
                    if r.Accepted? then AttemptFired else if r.Declined? then AttemptFailed else AttemptAmbiguous)
  {}

  /** A row that the provider has been unavailable for `n` times. */
  function Retried(db: Db, id: nat, n: nat): (r: Db)
    requires id < |db.outbox|
    ensures |r.outbox| == |db.outbox|
  {
    if n == 0 then db else SettleSubmitted(Retried(db, id, n - 1), id, Retriable)
  }

  /** A new intent is submitted five times at most while the provider is unavailable, and then no more. */
  lemma {:induction false} RetriesAreBounded(db: Db, id: nat, n: nat)
    requires id < |db.outbox| && db.outbox[id].state == OutboxPending && db.outbox[id].attempts == 0
    ensures var row := Retried(db, id, n).outbox[id];
            row == db.outbox[id].(attempts := n) && (Claimable(row) <==> n < 5)
  {
    if n > 0 { RetriesAreBounded(db, id, n - 1); }
  }

  predicate Claimable(row: OutboxRow) {
    row.state == OutboxPending && row.attempts < MAX_RELAY_ATTEMPTS
  }

  ghost predicate Rows(db: Db, pending: seq<nat>) {
    forall i :: 0 <= i < |pending| ==> pending[i] < |db.outbox|
  }

  ghost function KeysOf(outbox: seq<OutboxRow>, pending: seq<nat>): seq<Key>
    requires forall i :: 0 <= i < |pending| ==> pending[i] < |outbox|
  {
    seq(|pending|, i requires 0 <= i < |pending| => outbox[pending[i]].key)
  }

  datatype RelayResult = RelayResult(sent: nat, ambiguous: nat, failed: nat, retriable: nat)

  function Tallied(t: RelayResult, r: Response): RelayResult {
    match r
    case Accepted(_) => t.(sent := t.sent + 1)
    case Declined(_) => t.(failed := t.failed + 1)
    case Ambiguous => t.(ambiguous := t.ambiguous + 1)
    case Retriable => t.(retriable := t.retriable + 1)
  }

  datatype Pass = Pass(db: Db, provider: ProviderState, result: RelayResult)

  /** One claimed row: submit outside any transaction, then settle what came back. */
  function RelayRow(f: Faults, pass: Pass, id: nat): Pass
    requires id < |pass.db.outbox|
  {
    var (q, r) := Submit(f, pass.provider, pass.db.outbox[id].key);
    Pass(SettleSubmitted(pass.db, id, r), q, Tallied(pass.result, r))
  }

  /** One relay pass with nobody else at work: submit each claimed row and settle it, in order. */
  ghost function RelayAll(f: Faults, pass: Pass, pending: seq<nat>): Pass
    requires Rows(pass.db, pending)
    decreases |pending|
  {
    if pending == [] then pass else RelayAll(f, RelayRow(f, pass, pending[0]), pending[1..])
  }

  method SubmitAndSettle(conn: TenantDb, provider: FakeProvider, id: nat, result: RelayResult) returns (r: RelayResult)
    requires id < |conn.outbox|
    modifies conn, provider
    ensures Pass(conn.Snapshot(), provider.State(), r) ==
            RelayRow(provider.faults, Pass(old(conn.Snapshot()), old(provider.State()), result), id)
    ensures r.sent + r.ambiguous + r.failed + r.retriable ==
            result.sent + result.ambiguous + result.failed + result.retriable + 1
    ensures provider.submissions == old(provider.submissions) + [old(conn.outbox)[id].key]
    ensures |conn.outbox| == |old(conn.outbox)|
    ensures forall i :: 0 <= i < |conn.outbox| ==> conn.outbox[i].key == old(conn.outbox)[i].key
  {
    var response := provider.SubmitDebit(conn.outbox[id].key);
    match response {
      case Accepted(_) =>
        Settle(conn, id, OutboxSent, AttemptFired);
        r := result.(sent := result.sent + 1);
      case Declined(_) =>
        Settle(conn, id, OutboxSent, AttemptFailed);
        r := result.(failed := result.failed + 1);
      case Ambiguous =>
        Settle(conn, id, OutboxAmbiguous, AttemptAmbiguous);
        r := result.(ambiguous := result.ambiguous + 1);
      case Retriable =>
        conn.outbox := conn.outbox[id := conn.outbox[id].(attempts := conn.outbox[id].attempts + 1)];
        r := result.(retriable := result.retriable + 1);
    }
  }

  /** The claim statement: pending rows within their attempts that nobody else holds, oldest first, up to a batch. */
  function ClaimUpTo(outbox: seq<OutboxRow>, busy: set<nat>, batch: nat, n: nat): (p: seq<nat>)
    requires n <= |outbox|
    ensures forall i :: 0 <= i < |p| ==> p[i] < n
  {
    if n == 0 then []
    else
      var before := ClaimUpTo(outbox, busy, batch, n - 1);
      if |before| < batch && Claimable(outbox[n - 1]) && n - 1 !in busy then before + [n - 1] else before
  }

  function ClaimOutbox(outbox: seq<OutboxRow>, busy: set<nat>, batch: nat): (p: seq<nat>)
    ensures forall i :: 0 <= i < |p| ==> p[i] < |outbox|
  {
    ClaimUpTo(outbox, busy, batch, |outbox|)
  }

  lemma {:induction false} ClaimFacts(outbox: seq<OutboxRow>, busy: set<nat>, batch: nat, n: nat)
    requires n <= |outbox|
    ensures var p := ClaimUpTo(outbox, busy, batch, n);
            && |p| <= batch
            && (forall i :: 0 <= i < |p| ==>
                  p[i] < n && outbox[p[i]].state == OutboxPending && outbox[p[i]].attempts < 5 && p[i] !in busy)
            && (forall i, j :: 0 <= i < j < |p| ==> p[i] < p[j])
            && (forall id :: 0 <= id < n && outbox[id].state == OutboxPending && outbox[id].attempts < 5
                             && id !in busy && id !in p ==>
                  |p| == batch && forall i :: 0 <= i < |p| ==> p[i] < id)
    decreases n
  {
    if n > 0 { ClaimFacts(outbox, busy, batch, n - 1); }
  }

  /** The pass over the rows it has claimed. */
  method RelayClaimed(conn: TenantDb, provider: FakeProvider, pending: seq<nat>) returns (result: RelayResult)
    requires Rows(conn.Snapshot(), pending)
    requires forall i :: 0 <= i < |pending| ==> Claimable(conn.outbox[pending[i]])
    modifies conn, provider
    ensures Pass(conn.Snapshot(), provider.State(), result) ==
            RelayAll(provider.faults,
                     Pass(old(conn.Snapshot()), old(provider.State()), RelayResult(0, 0, 0, 0)), pending)
    ensures result.sent + result.ambiguous + result.failed + result.retriable == |pending|
    ensures provider.submissions == old(provider.submissions) + KeysOf(old(conn.outbox), pending)
  {
    result := RelayResult(0, 0, 0, 0);
    ghost var keys := KeysOf(conn.outbox, pending);
    ghost var whole := RelayAll(provider.faults, Pass(conn.Snapshot(), provider.State(), result), pending);
    for k := 0 to |pending|
      invariant |conn.outbox| == |old(conn.outbox)|
      invariant forall i :: 0 <= i < |conn.outbox| ==> conn.outbox[i].key == old(conn.outbox)[i].key
      invariant RelayAll(provider.faults, Pass(conn.Snapshot(), provider.State(), result), pending[k..]) == whole
      invariant result.sent + result.ambiguous + result.failed + result.retriable == k
      invariant provider.submissions == old(provider.submissions) + keys[..k]
    {
      assert pending[k..] == [pending[k]] + pending[k + 1..];
      assert keys[..k + 1] == keys[..k] + [conn.outbox[pending[k]].key];
      result := SubmitAndSettle(conn, provider, pending[k], result);
    }
    assert keys[..|pending|] == keys;
  }

  /** `relay_once`: claim a batch of rows, then submit and settle each. */
  method RelayOnce(conn: TenantDb, provider: FakeProvider, busy: set<nat>, batch: nat) returns (result: RelayResult)
    modifies conn, provider
    ensures var pending := ClaimOutbox(old(conn.outbox), busy, batch);
            && Rows(old(conn.Snapshot()), pending)
            && Pass(conn.Snapshot(), provider.State(), result) ==
               RelayAll(provider.faults,
                        Pass(old(conn.Snapshot()), old(provider.State()), RelayResult(0, 0, 0, 0)), pending)
            && result.sent + result.ambiguous + result.failed + result.retriable == |pending|
            && provider.submissions == old(provider.submissions) + KeysOf(old(conn.outbox), pending)
  {
    var pending := ClaimOutbox(conn.outbox, busy, batch);
    ClaimFacts(conn.outbox, busy, batch, |conn.outbox|);
    result := RelayClaimed(conn, provider, pending);
  }

  method Settle(conn: TenantDb, id: nat, row: OutboxState, attempt: AttemptState)
    requires id < |conn.outbox|
    modifies conn
    ensures conn.Snapshot() == SettleAs(old(conn.Snapshot()), id, row, attempt)
  {
    var key := conn.outbox[id].key;
    conn.outbox := SettleRow(conn.outbox, id, row);
    conn.attempts := MarkAttempts(conn.attempts, key, attempt);
  }

  datatype Reconciliation = Reconciliation(db: Db, provider: ProviderState, resolved: nat)

  /** Reconciliation with nobody else at work. It queries by key and never submits. */
  ghost function ReconcileAll(db: Db, p: ProviderState, pending: seq<nat>): Reconciliation
    requires Rows(db, pending)
    decreases |pending|
  {
    if pending == [] then Reconciliation(db, p, 0)
    else
      var (q, r) := Fetch(p, db.outbox[pending[0]].key);
      var rest := ReconcileAll(SettleFetched(db, pending[0], r), q, pending[1..]);
      rest.(resolved := rest.resolved + if r == Some(Ambiguous) then 0 else 1)
  }

  /** One row of the pass: query by key, and settle what is now known. */
  method QueryAndSettle(conn: TenantDb, provider: FakeProvider, id: nat) returns (settled: bool)
    requires id < |conn.outbox|
    modifies conn, provider
    ensures var (q, r) := Fetch(old(provider.State()), old(conn.outbox)[id].key);
            && provider.State() == q && conn.Snapshot() == SettleFetched(old(conn.Snapshot()), id, r)
            && settled == (r != Some(Ambiguous))
    ensures provider.submissions == old(provider.submissions) && |conn.outbox| == |old(conn.outbox)|
  {
    var response := provider.FetchByKey(conn.outbox[id].key);
    if response == Some(Ambiguous) { return false; }
    if response.Some? && response.value.Accepted? {
      Settle(conn, id, OutboxSent, AttemptFired);
    } else {
      Settle(conn, id, OutboxSent, AttemptFailed);
    }
    return true;
  }

  method ReconcileAmbiguous(conn: TenantDb, provider: FakeProvider, pending: seq<nat>) returns (resolved: nat)
    requires Rows(conn.Snapshot(), pending)
    requires forall i :: 0 <= i < |pending| ==> conn.outbox[pending[i]].state == OutboxAmbiguous
    modifies conn, provider
    ensures Reconciliation(conn.Snapshot(), provider.State(), resolved) ==
            ReconcileAll(old(conn.Snapshot()), old(provider.State()), pending)
    ensures provider.submissions == old(provider.submissions)
  {
    resolved := 0;
    ghost var whole := ReconcileAll(conn.Snapshot(), provider.State(), pending);
    for k := 0 to |pending|
      invariant |conn.outbox| == |old(conn.outbox)|
      invariant var rest := ReconcileAll(conn.Snapshot(), provider.State(), pending[k..]);
                rest.(resolved := resolved + rest.resolved) == whole
      invariant provider.submissions == old(provider.submissions)
    {
      assert pending[k..] == [pending[k]] + pending[k + 1..];
      var settled := QueryAndSettle(conn, provider, pending[k]);
      if settled { resolved := resolved + 1; }
    }
  }

  /** On an honest provider a query resolves every row: no answer it gives is ambiguous. */
  lemma {:induction false} ReconciliationResolvesAll(f: Faults, db: Db, p: ProviderState, pending: seq<nat>)
    requires Rows(db, pending) && Honest(f, p)
    ensures ReconcileAll(db, p, pending).resolved == |pending|
    decreases |pending|
  {
    if pending != [] {
      CallStaysHonest(f, p, db.outbox[pending[0]].key);
      var (q, r) := Fetch(p, db.outbox[pending[0]].key);
      ReconciliationResolvesAll(f, SettleFetched(db, pending[0], r), q, pending[1..]);
    }
  }
}

/** Draining a batch of claimed actions, one transaction each (prayas/executor/worker.py). */
module Worker {
  import opened Common
  import opened Projection
  import opened Tables
  import opened Claiming
  import opened Provider
  import Firing
  import Notice
  import Relay

  /** What the transaction of one action reads from outside the modelled tables. */
  datatype Inputs = Inputs(debit: Firing.Conditions, notice: Notice.NoticeConditions)

  /** Committed so far: the tables and the counters. `raised` ends the loop. */
  datatype Progress = Progress(db: Db, fired: nat, refused: nat, raised: bool)

  predicate IsNotice(a: ClaimedAction) { a.kind == Notice.ACTION_TYPE_NOTICE }

  function Handled(digest: string -> string, p: Progress, a: ClaimedAction, i: Inputs): Progress {
    if IsNotice(a) then
      var (db, outcome) := Notice.FireNotice(p.db, a, i.notice);
      if outcome == Notice.NoticeAborted then p.(db := db, raised := true)
      else if outcome == Notice.Sent then p.(db := db, fired := p.fired + 1)
      else p.(db := db, refused := p.refused + 1)
    else
      var (db, outcome) := Firing.Fire(digest, p.db, a, i.debit);
      if outcome == Firing.Aborted then p.(db := db, raised := true)
      else if outcome.Fired? then p.(db := db, fired := p.fired + 1)
      else p.(db := db, refused := p.refused + 1)
  }

  /** A notice is never fired as a debit nor a debit sent as a message, and a firing or a sending is counted as such. */
  lemma HandledByKind(digest: string -> string, p: Progress, a: ClaimedAction, i: Inputs)
    ensures var r := Handled(digest, p, a, i);
            && (a.kind == "pdn_notice" ==> r.db == Notice.FireNotice(p.db, a, i.notice).0 && r.db.outbox == p.db.outbox)
            && (a.kind != "pdn_notice" ==>
                  r.db == Firing.Fire(digest, p.db, a, i.debit).0 && r.db.interventions == p.db.interventions)
            && (r.fired == p.fired + 1 || r.refused == p.refused + 1 || (r.raised && r.db == p.db))
            && (r.fired > p.fired <==> if a.kind == "pdn_notice" then Notice.FireNotice(p.db, a, i.notice).1 == Notice.Sent
                                       else Firing.Fire(digest, p.db, a, i.debit).1.Fired?)
  {}

  /** The batch in order, up to the first transaction that raises. */
  function Drained(digest: string -> string, p: Progress, work: seq<(ClaimedAction, Inputs)>): Progress
    decreases |work|
  {
    if work == [] || p.raised then p else Drained(digest, Handled(digest, p, work[0].0, work[0].1), work[1..])
  }

  /** One action in its own transaction. */
  method HandleOne(conn: TenantDb, digest: string -> string, action: ClaimedAction, inputs: Inputs, fired: nat, refused: nat)
    returns (firedNow: nat, refusedNow: nat, raised: bool)
    modifies conn
    ensures Progress(conn.Snapshot(), firedNow, refusedNow, raised)
         == Handled(digest, Progress(old(conn.Snapshot()), fired, refused, false), action, inputs)
  {
    if IsNotice(action) {
      var notice := Notice.SendNotice(conn, action, inputs.notice);
      if notice == Notice.NoticeAborted { return fired, refused, true; }
      if notice == Notice.Sent { return fired + 1, refused, false; }
      return fired, refused + 1, false;
    }
    var outcome := Firing.FireAction(conn, digest, action, inputs.debit);
    if outcome == Firing.Aborted { return fired, refused, true; }
    if outcome.Fired? { return fired + 1, refused, false; }
    return fired, refused + 1, false;
  }

  /** The loop over a claimed batch, which an exception leaves. */
  method FireBatch(conn: TenantDb, digest: string -> string, work: seq<(ClaimedAction, Inputs)>)
    returns (fired: nat, refused: nat, raised: bool)
    modifies conn
    ensures Progress(conn.Snapshot(), fired, refused, raised)
         == Drained(digest, Progress(old(conn.Snapshot()), 0, 0, false), work)
  {
    fired, refused, raised := 0, 0, false;
    ghost var whole := Drained(digest, Progress(conn.Snapshot(), 0, 0, false), work);
    for k := 0 to |work|
      invariant !raised && Drained(digest, Progress(conn.Snapshot(), fired, refused, false), work[k..]) == whole
    {
      var (action, inputs) := work[k];
      assert work[k..] == [work[k]] + work[k + 1..];
      fired, refused, raised := HandleOne(conn, digest, action, inputs, fired, refused);
      if raised { return; }
    }
  }

  datatype TickResult = TickResult(claimed: nat, fired: nat, refused: nat, relayed: nat)

  const RELAY_BATCH: nat := 50

  /** The claimed actions, each with what its transaction will read. */
  function Work(picked: seq<ActionId>, actions: map<ActionId, Action>, inputs: seq<Inputs>): seq<(ClaimedAction, Inputs)>
    requires |inputs| == |picked| && forall i :: 0 <= i < |picked| ==> picked[i] in actions
  {
    seq(|picked|, i requires 0 <= i < |picked| => (Claimed(picked[i], actions[picked[i]]), inputs[i]))
  }

  /**
   * One tenant's turn: claim, one transaction per action, then a relay pass. What is picked and what is locked by
   * others are the database's to say. `None` is an exception on the way, with what had been committed left in place
   * and nothing relayed.
   */
  method DrainTenant(
      conn: TenantDb, provider: FakeProvider, digest: string -> string,
      ghost locked: set<ActionId>, ghost due: Time, now: Time, batch: nat, lease: nat,
      picked: seq<ActionId>, inputs: seq<Inputs>, busy: set<nat>)
    returns (r: Option<TickResult>)
    requires IsClaim(conn.actions, locked, due, now, batch, picked) && |inputs| == |picked|
    modifies conn, provider
    ensures var claimed := old(conn.Snapshot()).(actions := ClaimRows(old(conn.actions), picked, now + lease));
            var p := Drained(digest, Progress(claimed, 0, 0, false), Work(picked, old(conn.actions), inputs));
            && (r.None? <==> p.raised)
            && (r.None? ==> conn.Snapshot() == p.db && provider.State() == old(provider.State()))
            && (r.Some? ==>
                  var pass := Relay.RelayAll(provider.faults,
                                             Relay.Pass(p.db, old(provider.State()), Relay.RelayResult(0, 0, 0, 0)),
                                             Relay.ClaimOutbox(p.db.outbox, busy, 50));
                  && conn.Snapshot() == pass.db && provider.State() == pass.provider
                  && r.value == TickResult(|picked|, p.fired, p.refused, pass.result.sent)
                  && p.fired + p.refused == |picked|)
  {
    ghost var actions := conn.actions;
    var claimed := ClaimDueActions(conn, locked, due, now, batch, lease, picked);
    ghost var start := Progress(conn.Snapshot(), 0, 0, false);
    var work := seq(|claimed|, i requires 0 <= i < |claimed| => (claimed[i], inputs[i]));
    assert work == Work(picked, actions, inputs);
    var fired, refused, raised := FireBatch(conn, digest, work);
    if raised { return None; }
    BatchAccounted(digest, start, work);
    var relay := Relay.RelayOnce(conn, provider, busy, RELAY_BATCH);
    r := Some(TickResult(|claimed|, fired, refused, relay.sent));
  }

  /** A batch that raises nothing is accounted for in full, and queues at most one intent per firing. */
  lemma {:induction false} BatchAccounted(digest: string -> string, p: Progress, work: seq<(ClaimedAction, Inputs)>)
    ensures var r := Drained(digest, p, work);
            && |p.db.outbox| <= |r.db.outbox| <= |p.db.outbox| + (r.fired - p.fired)
            && (!r.raised ==> r.fired + r.refused == p.fired + p.refused + |work|)
    decreases |work|
  {
    if work != [] && !p.raised {
      var (a, i) := work[0];
      if IsNotice(a) {
        Notice.NoticeSpendsNothing(p.db, a, i.notice);
      } else if !Firing.Fire(digest, p.db, a, i.debit).1.Fired? {
        Firing.RefusalSpendsNothing(digest, p.db, a, i.debit);
      }
      BatchAccounted(digest, Handled(digest, p, a, i), work[1..]);
    }
  }

  /** The actions of a batch that a transaction can settle: a debit without a cycle is left under its lease. */
  predicate Settleable(db: Db, a: ClaimedAction) { a.id in db.actions && (IsNotice(a) || a.cycle.Some?) }

  /** A batch that raises nothing settles every one of them; no action outside the batch is touched. */
  lemma {:induction false} BatchSettled(digest: string -> string, p: Progress, work: seq<(ClaimedAction, Inputs)>, id: ActionId)
    requires id in p.db.actions
    ensures var r := Drained(digest, p, work);
            && id in r.db.actions
            && ((forall k :: 0 <= k < |work| ==> work[k].0.id != id) ==> r.db.actions[id] == p.db.actions[id])
            && (!Live(p.db.actions[id]) ==> !Live(r.db.actions[id]))
            && (!r.raised && (exists k :: 0 <= k < |work| && work[k].0.id == id && Settleable(p.db, work[k].0)) ==>
                  !Live(r.db.actions[id]))
    decreases |work|
  {
    if work != [] && !p.raised {
      var (a, i) := work[0];
      var q := Handled(digest, p, a, i);
      if IsNotice(a) {
        Notice.NoticeSettlesOwnAction(p.db, a, i.notice);
      } else {
        Firing.FireSettlesOwnAction(digest, p.db, a, i.debit);
      }
      BatchSettled(digest, q, work[1..], id);
      if k :| 0 <= k < |work| && work[k].0.id == id && Settleable(p.db, work[k].0) {
        if k > 0 { assert work[1..][k - 1] == work[k]; }
      }
    }
  }
}
