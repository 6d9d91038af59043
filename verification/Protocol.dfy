/**
 * The debit protocol as a step machine: any number of workers, relays, reconcilers and projectors
 * interleave over one tenant's tables, one committed transaction or provider call at a time.
 *
 * What relays and reconcilers have in hand is kept as multisets: each row picked up is submitted at most
 * once by whoever picked it up, and each answer settled at most once, but any time later or never.
 */
module Protocol {
  import opened Common
  import opened States
  import opened Projection
  import opened Tables
  import opened Claiming
  import opened Provider
  import Gate
  import Firing
  import Notice
  import Projector
  import Relay

  datatype Config = Config(digest: string -> string, faults: Faults, lease: nat)

  /** A worker's claim: what the claim statement returned, and when its lease runs out. */
  datatype Held = Held(action: ClaimedAction, until: Time)

  datatype World = World(
    now: Time,
    db: Db,
    log: seq<Event>,                        // verified events, in commit order
    read: map<MandateId, nat>,              // how much of the log each mandate's last projection read
    provider: ProviderState,
    sent: seq<(Key, Request)>,              // every submission with the request it carried
    held: set<Held>,
    relaying: multiset<nat>,                // outbox rows as picked up, once for each relay that did
    answers: multiset<(nat, Response)>,     // answers received and not yet settled
    querying: multiset<nat>,
    found: multiset<(nat, Option<Response>)>,
    fired: seq<ActionId>)                   // actions whose fire transaction committed a firing

  const START: World :=
    World(0, Db(map[], map[], map[], [], [], [], map[]), [], map[], FRESH, [], {}, multiset{}, multiset{}, multiset{}, multiset{}, [])

  datatype Step =
    | Tick(now: Time)
    | Arrive(event: Event)
    | AddMandate(mandate: MandateId, state: MandateState)
    | Project(mandate: MandateId, upTo: nat)
    | Schedule(action: ActionId, row: Action)
    | Claim(picked: seq<ActionId>, due: Time)
    | Fire(held: Held, conditions: Firing.Conditions)
    | SendNotice(held: Held, notice: Notice.NoticeConditions)
    | Crash(held: Held)
    | CancelCycle(cycle: CycleId)
    | PickUp(id: nat)
    | Submit(id: nat)
    | Settle(id: nat, response: Response)
    | PickUpAmbiguous(id: nat)
    | Query(id: nat)
    | SettleQuery(id: nat, fetched: Option<Response>)

  function ReadSoFar(w: World, m: MandateId): nat {
    if m in w.read then w.read[m] else 0
  }

  ghost predicate Enabled(w: World, s: Step) {
    match s
    case Tick(t) => w.now <= t
    case Arrive(e) => forall f :: f in w.log ==> f.id != e.id
    case AddMandate(m, _) => m !in w.db.mandates
    case Project(m, n) => m in w.db.mandates && ReadSoFar(w, m) <= n <= |w.log|
    case Schedule(id, row) => id !in w.db.actions && row.state == ActionPending && row.lockedUntil.None?
    case Claim(picked, due) =>
      && (forall i :: 0 <= i < |picked| ==> picked[i] in w.db.actions && Eligible(w.db.actions[picked[i]], due, w.now))
      && (forall i, j :: 0 <= i < j < |picked| ==> picked[i] != picked[j])
    case Fire(h, _) => h in w.held && h.action.kind != Notice.ACTION_TYPE_NOTICE
    case SendNotice(h, _) => h in w.held && h.action.kind == Notice.ACTION_TYPE_NOTICE
    case Crash(h) => h in w.held
    case CancelCycle(_) => true
    case PickUp(id) => id < |w.db.outbox| && Relay.Claimable(w.db.outbox[id])
    case Submit(id) => id in w.relaying && id < |w.db.outbox|
    case Settle(id, r) => (id, r) in w.answers && id < |w.db.outbox|
    case PickUpAmbiguous(id) => id < |w.db.outbox| && w.db.outbox[id].state == OutboxAmbiguous
    case Query(id) => id in w.querying && id < |w.db.outbox|
    case SettleQuery(id, r) => (id, r) in w.found && id < |w.db.outbox|
  }

  ghost function Effect(cfg: Config, w: World, s: Step): World
    requires Enabled(w, s)
  {
    match s
    case Tick(t) => w.(now := t)
    case Arrive(e) => w.(log := w.log + [e])
    case AddMandate(m, state) => w.(db := w.db.(mandates := w.db.mandates[m := state]))
    case Project(m, n) =>
      var applied := Projector.ApplyMandate(w.db, m, Projector.OfMandate(w.log[..n], m));
      if applied.None? then w else w.(db := applied.value, read := w.read[m := n])
    case Schedule(id, row) => w.(db := w.db.(actions := w.db.actions[id := row]))
    case Claim(picked, due) =>
      w.(db := w.db.(actions := ClaimRows(w.db.actions, picked, w.now + cfg.lease)),
         held := w.held + set i | 0 <= i < |picked| :: Held(Claimed(picked[i], w.db.actions[picked[i]]), w.now + cfg.lease))
    case Fire(h, c) =>
      var (db, outcome) := Firing.Fire(cfg.digest, w.db, h.action, c);
      w.(db := db, held := w.held - {h}, fired := if outcome.Fired? then w.fired + [h.action.id] else w.fired)
    case SendNotice(h, c) => w.(db := Notice.FireNotice(w.db, h.action, c).0, held := w.held - {h})
    case Crash(h) => w.(held := w.held - {h})
    case CancelCycle(c) => w.(db := w.db.(actions := CancelForCycle(w.db.actions, c)))
    case PickUp(id) => w.(relaying := w.relaying + multiset{id})
    case Submit(id) =>
      var row := w.db.outbox[id];
      var (p, r) := Provider.Submit(cfg.faults, w.provider, row.key);
      w.(provider := p, relaying := w.relaying - multiset{id}, answers := w.answers + multiset{(id, r)},
         sent := w.sent + [(row.key, row.request)])
    case Settle(id, r) =>
      w.(db := Relay.SettleSubmitted(w.db, id, r), answers := w.answers - multiset{(id, r)})
    case PickUpAmbiguous(id) => w.(querying := w.querying + multiset{id})
    case Query(id) =>
      var (p, r) := Fetch(w.provider, w.db.outbox[id].key);
      w.(provider := p, querying := w.querying - multiset{id}, found := w.found + multiset{(id, r)})
    case SettleQuery(id, r) =>
      w.(db := Relay.SettleFetched(w.db, id, r), found := w.found - multiset{(id, r)})
  }

  ghost function Next(cfg: Config, w: World, s: Step): World {
    if Enabled(w, s) then Effect(cfg, w, s) else w
  }

  ghost function Run(cfg: Config, w: World, steps: seq<Step>): World
    decreases steps
  {
    if steps == [] then w else Run(cfg, Next(cfg, w, steps[0]), steps[1..])
  }

  lemma {:induction false} RunSplit(cfg: Config, w: World, a: seq<Step>, b: seq<Step>)
    ensures Run(cfg, w, a + b) == Run(cfg, Run(cfg, w, a), b)
    decreases a
  {
    if a == [] {
      assert a + b == b;
    } else {
      assert (a + b)[1..] == a[1..] + b;
      RunSplit(cfg, Next(cfg, w, a[0]), a[1..], b);
    }
  }

  lemma {:induction false} LogOnlyGrows(cfg: Config, w: World, steps: seq<Step>)
    ensures w.log <= Run(cfg, w, steps).log
    decreases steps
  {
    if steps != [] { LogOnlyGrows(cfg, Next(cfg, w, steps[0]), steps[1..]); }
  }

  ghost predicate DistinctIds(log: seq<Event>) {
    forall i, j :: 0 <= i < j < |log| ==> log[i].id != log[j].id
  }

  lemma StepKeepsIds(cfg: Config, w: World, s: Step)
    requires DistinctIds(w.log)
    ensures DistinctIds(Next(cfg, w, s).log)
  {
    if Enabled(w, s) && s.Arrive? {
      assert Next(cfg, w, s).log == w.log + [s.event];
      assert forall i :: 0 <= i < |w.log| ==> w.log[i] in w.log;
    }
  }

  /** However events arrive, each is in the log once. */
  lemma {:induction false} IdsStayDistinct(cfg: Config, w: World, steps: seq<Step>)
    requires DistinctIds(w.log)
    ensures DistinctIds(Run(cfg, w, steps).log)
    decreases steps
  {
    if steps != [] {
      StepKeepsIds(cfg, w, steps[0]);
      IdsStayDistinct(cfg, Next(cfg, w, steps[0]), steps[1..]);
    }
  }
}
