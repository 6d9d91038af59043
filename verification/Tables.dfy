/**
 * One tenant's tables (migrations/versions/0002_schema.py), as values and as the object that the
 * transactions of the executor and the projector update in place.
 */
module Tables {
  import opened Common
  import opened States
  import opened Projection
  import Gate

  type ActionId = string
  type Key = string

  datatype Cycle = Cycle(
    mandate: MandateId,
    seqNo: nat,
    amount: int,
    dueAt: Time,
    deadline: Time,
    budget: nat,
    used: int,
    state: CycleState,
    pdnSentAt: Option<Time>,
    lastFailure: Option<Time>,
    recovered: int)

  datatype ActionState = ActionPending | ActionClaimed | ActionDone | ActionCancelled

  datatype Action = Action(
    cycle: Option<CycleId>,
    mandate: Option<MandateId>,
    kind: string,
    fireAt: Time,
    payloadAmount: Option<int>,
    state: ActionState,
    lockedUntil: Option<Time>)

  datatype AttemptState = AttemptFired | AttemptFailed | AttemptAmbiguous

  datatype Attempt = Attempt(cycle: CycleId, seqNo: int, key: Key, state: AttemptState, decision: string)

  datatype Request = Request(mandate: MandateId, cycle: CycleId, amount: int, kind: string, decision: string)

  datatype OutboxState = OutboxPending | OutboxSent | OutboxAmbiguous

  datatype OutboxRow = OutboxRow(key: Key, request: Request, state: OutboxState, attempts: nat)

  datatype LedgerVerdict = Stale | Judged(verdict: Gate.Verdict)

  datatype Decision = Decision(
    id: string,
    ts: Time,
    mandate: MandateId,
    cycle: CycleId,
    kind: string,
    verdict: LedgerVerdict,
    checks: seq<Gate.Check>,
    degraded: bool,
    chosenKey: Option<Key>)

  /** A message sent to a person. Its primary key is made from the action's. */
  datatype Intervention = Intervention(mandate: MandateId, proposedAt: Time, decision: string)

  datatype Db = Db(
    mandates: map<MandateId, MandateState>,
    cycles: map<CycleId, Cycle>,
    actions: map<ActionId, Action>,
    attempts: seq<Attempt>,
    outbox: seq<OutboxRow>,
    decisions: seq<Decision>,
    interventions: map<ActionId, Intervention>)

  class TenantDb {
    var mandates: map<MandateId, MandateState>
    var cycles: map<CycleId, Cycle>
    var actions: map<ActionId, Action>
    var attempts: seq<Attempt>
    var outbox: seq<OutboxRow>
    var decisions: seq<Decision>
    var interventions: map<ActionId, Intervention>

    function Snapshot(): Db
      reads this
    {
      Db(mandates, cycles, actions, attempts, outbox, decisions, interventions)
    }
  }

  predicate Live(a: Action) {
    a.state == ActionPending || a.state == ActionClaimed
  }

  /** UPDATE ... SET state, locked_until = NULL: a missing row is no error. */
  function Release(db: Db, id: ActionId, state: ActionState): Db {
    if id in db.actions
    then db.(actions := db.actions[id := db.actions[id].(state := state, lockedUntil := None)])
    else db
  }

  function Record(db: Db, d: Decision): Db {
    db.(decisions := db.decisions + [d])
  }

  predicate HasKey(attempts: seq<Attempt>, key: Key) {
    exists i :: 0 <= i < |attempts| && attempts[i].key == key
  }

  predicate HasSeq(attempts: seq<Attempt>, cycle: CycleId, seqNo: int) {
    exists i :: 0 <= i < |attempts| && attempts[i].cycle == cycle && attempts[i].seqNo == seqNo
  }

  predicate Queued(outbox: seq<OutboxRow>, key: Key) {
    exists i :: 0 <= i < |outbox| && outbox[i].key == key
  }

  /**
   * INSERT INTO attempts ... ON CONFLICT (idem_key) DO NOTHING. Only the key is arbitrated: a
   * second row for the same (cycle_id, attempt_seq) under another key violates the other UNIQUE.
   */
  function InsertAttempt(attempts: seq<Attempt>, a: Attempt): Option<seq<Attempt>> {
    if HasKey(attempts, a.key) then Some(attempts)
    else if HasSeq(attempts, a.cycle, a.seqNo) then None
    else Some(attempts + [a])
  }

  function InsertOutbox(outbox: seq<OutboxRow>, row: OutboxRow): seq<OutboxRow> {
    if Queued(outbox, row.key) then outbox else outbox + [row]
  }

  /** INSERT INTO interventions ... ON CONFLICT (intervention_id) DO NOTHING. */
  function InsertIntervention(rows: map<ActionId, Intervention>, id: ActionId, row: Intervention): map<ActionId, Intervention> {
    if id in rows then rows else rows[id := row]
  }

  /** UPDATE attempts SET state WHERE idem_key = key. */
  function MarkAttempts(attempts: seq<Attempt>, key: Key, state: AttemptState): seq<Attempt> {
    seq(|attempts|, i requires 0 <= i < |attempts| =>
      if attempts[i].key == key then attempts[i].(state := state) else attempts[i])
  }
}
