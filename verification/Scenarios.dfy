/** Runs that show why the hypotheses of the safety results are there. */
module Scenarios {
  import opened Common
  import opened States
  import opened Projection
  import opened Tables
  import opened Claiming
  import opened Provider
  import opened Protocol
  import opened Budget
  import Firing
  import Gate
  import IdemKey
  import Notice
  import Projector
  import Relay

  // ---------------------------------------------------------------- a log of one event

  predicate Opens(e: Event, m: MandateId, c: CycleId) {
    e.mandate == Some(m) && e.cycleRef == Some(c) && e.nextBilling.Some? && !IsFailure(e)
  }

  lemma Reads(e: Event, m: MandateId, c: CycleId)
    requires Opens(e, m, c)
    ensures Projector.OfMandate([e], m) == [e] && Projector.ForCycle([e], c) == [e]
    ensures Projector.SortedRefs([e]) == [c] && Sorted([e]) == [e]
    ensures Projector.Names([e], c) && Projector.Dated([e])
    ensures ProjectCycle([e]).attemptsUsed == 0
    ensures ProjectCycle([e]).state == if IsSuccess(e) then Succeeded else Scheduled
  {
    assert [e][..0] == [] && [e][1..] == [];
    assert e in [e];
    KeyedEmpty([e], IsFailure);
    KeyedEmpty([e], IsSuccess);
  }

  lemma ProjectsOne(db: Db, m: MandateId, c: CycleId, e: Event)
    requires Opens(e, m, c) && (c in db.cycles ==> db.cycles[c].budget == Projector.ATTEMPT_BUDGET)
    ensures var r := Projector.ApplyMandate(db, m, [e]);
            && r.Some? && c in r.value.cycles && r.value == db.(mandates := r.value.mandates, cycles := r.value.cycles, actions := r.value.actions)
            && r.value.actions.Keys == db.actions.Keys
            && r.value.cycles[c].state == (if IsSuccess(e) then Succeeded else Scheduled)
            && r.value.cycles[c].used == 0
            && r.value.mandates == db.mandates[m := MandateOf([e])]
            && (c !in db.cycles ==>
                  r.value.cycles[c].mandate == m && r.value.cycles[c].deadline == e.nextBilling.value
                  && r.value.cycles[c].amount == (if e.amount.Some? then e.amount.value else 0)
                  && r.value.cycles[c].budget == Projector.ATTEMPT_BUDGET)
  {
    Reads(e, m, c);
    Projector.RefsAreNamed([e]);
    assert [c][1..] == [] && [e][1..] == [];
    assert Projector.FirstAmount([e]) == if e.amount.Some? then e.amount.value else 0;
    assert Projector.Billing([e]) == e.nextBilling;
    var w := Projector.Written(db.cycles, db.actions);
    var upserted := Projector.UpsertCycle(db.cycles, c, m, [e]);
    assert upserted.Some?;
    assert Projector.WriteCycles(w, m, [e], [c]).Some?;
  }

  // ---------------------------------------------------------------- one cycle reference, two mandates

  /**
   * Paid is not final when a second mandate's events name the cycle: projecting that mandate overwrites
   * the stored payment, since nothing ties a cycle reference to one mandate.
   */
  lemma SharedReferenceUnpays(cfg: Config, a: MandateId, b: MandateId, c: CycleId, paid: Event, named: Event)
    requires a != b && paid.id != named.id
    requires Opens(paid, a, c) && IsSuccess(paid) && Opens(named, b, c) && !IsSuccess(named)
    ensures var before := [Arrive(paid), AddMandate(a, Created), Project(a, 1)];
            var after := [Arrive(named), AddMandate(b, Created), Project(b, 2)];
            && c in Run(cfg, START, before).db.cycles && c in Run(cfg, START, before + after).db.cycles
            && Run(cfg, START, before).db.cycles[c].state in CYCLE_PAID
            && Run(cfg, START, before + after).db.cycles[c].state !in CYCLE_PAID
  {
    var w := FirstProjection(cfg, a, c, paid);
    var before := [Arrive(paid), AddMandate(a, Created), Project(a, 1)];
    var after := [Arrive(named), AddMandate(b, Created), Project(b, 2)];
    RunSplit(cfg, START, before, after);
    SecondProjection(cfg, w, a, b, c, paid, named);
  }

  lemma SecondProjection(cfg: Config, w: World, a: MandateId, b: MandateId, c: CycleId, paid: Event, named: Event)
    requires a != b && paid.id != named.id && paid.mandate == Some(a) && Opens(named, b, c) && !IsSuccess(named)
    requires w.log == [paid] && b !in w.db.mandates && b !in w.read
    requires c in w.db.cycles && w.db.cycles[c].budget == Projector.ATTEMPT_BUDGET
    ensures var v := Run(cfg, w, [Arrive(named), AddMandate(b, Created), Project(b, 2)]);
            c in v.db.cycles && v.db.cycles[c].state !in CYCLE_PAID
  {
    var v := w.(log := [paid, named], db := w.db.(mandates := w.db.mandates[b := Created]));
    ArrivesAndEnrols(cfg, w, b, paid, named);
    RunThree(cfg, w, Arrive(named), AddMandate(b, Created), Project(b, 2));
    SecondOnly(paid, named, a, b);
    ProjectsAll(cfg, v, b, c, [paid, named], named);
  }

  lemma ArrivesAndEnrols(cfg: Config, w: World, b: MandateId, paid: Event, named: Event)
    requires paid.id != named.id && w.log == [paid] && b !in w.db.mandates
    ensures Next(cfg, Next(cfg, w, Arrive(named)), AddMandate(b, Created))
         == w.(log := [paid, named], db := w.db.(mandates := w.db.mandates[b := Created]))
  {
    assert [paid] + [named] == [paid, named];
    Arrives(cfg, w, named);
    Enrolled(cfg, w.(log := [paid, named]), b);
  }

  lemma Arrives(cfg: Config, w: World, e: Event)
    requires forall f :: f in w.log ==> f.id != e.id
    ensures Next(cfg, w, Arrive(e)) == w.(log := w.log + [e])
  {}

  lemma Enrolled(cfg: Config, w: World, m: MandateId)
    requires m !in w.db.mandates
    ensures Next(cfg, w, AddMandate(m, Created)) == w.(db := w.db.(mandates := w.db.mandates[m := Created]))
  {}

  lemma RunThree(cfg: Config, w: World, r: Step, s: Step, t: Step)
    ensures Run(cfg, w, [r, s, t]) == Next(cfg, Next(cfg, Next(cfg, w, r), s), t)
  {
    assert [r, s, t][1..] == [s, t] && [s, t][1..] == [t] && [t][1..] == [];
    assert Run(cfg, Next(cfg, w, r), [s, t]) == Run(cfg, Next(cfg, Next(cfg, w, r), s), [t]);
  }

  lemma RunFour(cfg: Config, w: World, q: Step, r: Step, s: Step, t: Step)
    ensures Run(cfg, w, [q, r, s, t]) == Next(cfg, Next(cfg, Next(cfg, Next(cfg, w, q), r), s), t)
  {
    assert [q, r, s, t][1..] == [r, s, t];
    assert Run(cfg, w, [q, r, s, t]) == Run(cfg, Next(cfg, w, q), [r, s, t]);
    RunThree(cfg, Next(cfg, w, q), r, s, t);
  }

  /** Projecting a mandate that only one event of the log is about. */
  lemma ProjectsAll(cfg: Config, w: World, m: MandateId, c: CycleId, log: seq<Event>, e: Event)
    requires w.log == log && m in w.db.mandates && m !in w.read && Opens(e, m, c)
    requires Projector.OfMandate(log, m) == [e] && (c in w.db.cycles ==> w.db.cycles[c].budget == Projector.ATTEMPT_BUDGET)
    ensures var v := Next(cfg, w, Project(m, |log|));
            && Projector.ApplyMandate(w.db, m, [e]).Some?
            && v == w.(db := Projector.ApplyMandate(w.db, m, [e]).value, read := w.read[m := |log|])
            && c in v.db.cycles && v.db.cycles[c].state == (if IsSuccess(e) then Succeeded else Scheduled)
  {
    assert w.log[..|log|] == log;
    ProjectsOne(w.db, m, c, e);
  }

  lemma SecondOnly(paid: Event, named: Event, a: MandateId, b: MandateId)
    requires a != b && paid.mandate == Some(a) && named.mandate == Some(b)
    ensures Projector.OfMandate([paid, named], b) == [named]
  {
    assert [paid, named][..1] == [paid] && [paid][..0] == [];
    assert Projector.OfMandate([paid], b) == [];
  }

  /** The world after one event has arrived and its mandate has been enrolled and projected. */
  lemma FirstProjection(cfg: Config, m: MandateId, c: CycleId, e: Event) returns (w: World)
    requires Opens(e, m, c)
    ensures w == Run(cfg, START, [Arrive(e), AddMandate(m, Created), Project(m, 1)])
    ensures w.log == [e] && w.read == map[m := 1] && w.db.mandates == map[m := MandateOf([e])]
    ensures w == START.(log := w.log, read := w.read, db := w.db)
    ensures c in w.db.cycles && w.db.cycles[c].state == (if IsSuccess(e) then Succeeded else Scheduled)
    ensures w.db.cycles[c].mandate == m && w.db.cycles[c].budget == Projector.ATTEMPT_BUDGET && w.db.cycles[c].used == 0
    ensures w.db.cycles[c].deadline == e.nextBilling.value
    ensures w.db.cycles[c].amount == (if e.amount.Some? then e.amount.value else 0)
    ensures w.db.actions.Keys == {} && w.db.attempts == [] && w.db.outbox == []
  {
    var w1 := START.(log := [e]);
    var w2 := w1.(db := START.db.(mandates := map[m := Created]));
    Arrives(cfg, START, e);
    Enrolled(cfg, w1, m);
    assert START.log + [e] == [e];
    RunThree(cfg, START, Arrive(e), AddMandate(m, Created), Project(m, 1));
    Reads(e, m, c);
    ProjectsAll(cfg, w2, m, c, [e], e);
    ProjectsOne(w2.db, m, c, e);
    w := Next(cfg, w2, Project(m, 1));
  }

  // ---------------------------------------------------------------- an expired lease

  /** The one-rule gate reading that lets everything through. */
  function Permissive(): Gate.RuleReading { Some([(Gate.Rule("R", 1, Gate.Known(Gate.DENY)), Gate.Passed)]) }

  function Go(decision: string): Firing.Conditions { Firing.Conditions(decision, 0, false, true, Permissive()) }

  lemma PermissiveAllows()
    ensures Gate.Evaluate(Permissive()).Allowed()
  {
    Gate.AllowedExactlyWhen(Permissive());
  }

  /** An action that the fire transaction would let through if it were its first sight of it. */
  ghost predicate Fireable(db: Db, a: ClaimedAction) {
    && a.cycle.Some? && a.cycle.value != "" && a.cycle.value in db.cycles && a.kind != "" && a.payloadAmount.None?
    && (var cycle := db.cycles[a.cycle.value];
        && cycle.mandate in db.mandates && db.mandates[cycle.mandate] == Active
        && cycle.state !in SETTLED_CYCLE_STATES && cycle.deadline >= 0 && cycle.amount >= 0
        && 0 <= cycle.used < cycle.budget
        && (forall i :: 0 <= i < |db.attempts| ==> db.attempts[i].cycle == a.cycle.value ==> db.attempts[i].seqNo <= cycle.used))
  }

  lemma FireableFires(cfg: Config, db: Db, a: ClaimedAction, decision: string)
    requires Books(db) && Fireable(db, a)
    ensures var (r, outcome) := Firing.Fire(cfg.digest, db, a, Go(decision));
            && outcome.Fired?
            && (db.cycles[a.cycle.value].used + 1 < db.cycles[a.cycle.value].budget ==> Fireable(r, a))
  {
    PermissiveAllows();
    Firing.FiresExactlyWhen(cfg.digest, db, a, Go(decision));
    FiredRow(cfg, db, a, Go(decision));
  }

  /**
   * Nothing in the fire transaction looks at the action's state or lease, so a claim that outlived its
   * lease fires next to the claim that replaced it: whoever holds two claims of one action can fire both.
   */
  lemma ExpiredClaimFiresAgain(cfg: Config, w: World, g: Held, h: Held)
    requires Books(w.db) && g in w.held && h in w.held && g != h && g.action == h.action
    requires g.action.kind != Notice.ACTION_TYPE_NOTICE && Fireable(w.db, g.action)
    requires w.db.cycles[g.action.cycle.value].used + 1 < w.db.cycles[g.action.cycle.value].budget
    ensures Run(cfg, w, [Fire(g, Go("d1")), Fire(h, Go("d2"))]).fired == w.fired + [g.action.id, g.action.id]
  {
    var v := FiresNow(cfg, w, g, "d1");
    var u := FiresNow(cfg, v, h, "d2");
    assert u.fired == w.fired + [g.action.id] + [h.action.id];
    assert [Fire(g, Go("d1")), Fire(h, Go("d2"))][1..] == [Fire(h, Go("d2"))];
    assert [Fire(h, Go("d2"))][1..] == [];
    assert Run(cfg, v, [Fire(h, Go("d2"))]) == u;
  }

  lemma FiresNow(cfg: Config, w: World, g: Held, decision: string) returns (v: World)
    requires Books(w.db) && g in w.held && g.action.kind != Notice.ACTION_TYPE_NOTICE && Fireable(w.db, g.action)
    ensures v == Next(cfg, w, Fire(g, Go(decision))) && Books(v.db) && v.held == w.held - {g}
    ensures v.fired == w.fired + [g.action.id]
    ensures w.db.cycles[g.action.cycle.value].used + 1 < w.db.cycles[g.action.cycle.value].budget ==> Fireable(v.db, g.action)
  {
    FireableFires(cfg, w.db, g.action, decision);
    FireKeepsBooks(cfg, w.db, g.action, Go(decision));
    v := Next(cfg, w, Fire(g, Go(decision)));
  }

  predicate Enrols(e: Event, m: MandateId, c: CycleId) {
    Opens(e, m, c) && e.kind.SubscriptionAuthenticated? && e.nextBilling.value >= 0 && (e.amount.Some? ==> e.amount.value >= 0)
  }

  function Due(m: MandateId, c: CycleId, kind: string): Action {
    Action(Some(c), Some(m), kind, 0, None, ActionPending, None)
  }

  function Claims(cfg: Config, act: ActionId, row: Action): (Held, Held) {
    (Held(Claimed(act, row), cfg.lease), Held(Claimed(act, row), 2 * cfg.lease + 1))
  }

  /** Claim an action, let the lease run out, claim it again: two workers now hold the same work. */
  lemma ClaimedTwice(cfg: Config, w: World, act: ActionId, row: Action)
    requires w.now == 0 && w.held == {} && act !in w.db.actions
    requires row.state == ActionPending && row.lockedUntil.None? && row.fireAt == 0
    ensures var (g, h) := Claims(cfg, act, row);
            var v := Run(cfg, w, [Schedule(act, row), Claim([act], 0), Tick(cfg.lease + 1), Claim([act], 0)]);
            && g in v.held && h in v.held
            && v.db == w.db.(actions := v.db.actions) && v.fired == w.fired && v.log == w.log && v.read == w.read
  {
    var w1 := w.(db := w.db.(actions := w.db.actions[act := row]));
    var w2 := Next(cfg, w1, Claim([act], 0));
    var w3 := w2.(now := cfg.lease + 1);
    Waits(cfg, w, act, row);
    ClaimOne(cfg, w1, act);
    Passes(cfg, w2, cfg.lease + 1);
    ClaimOne(cfg, w3, act);
    RunFour(cfg, w, Schedule(act, row), Claim([act], 0), Tick(cfg.lease + 1), Claim([act], 0));
  }

  lemma Waits(cfg: Config, w: World, act: ActionId, row: Action)
    requires act !in w.db.actions && row.state == ActionPending && row.lockedUntil.None?
    ensures Next(cfg, w, Schedule(act, row)) == w.(db := w.db.(actions := w.db.actions[act := row]))
  {}

  lemma Passes(cfg: Config, w: World, now: Time)
    requires w.now <= now
    ensures Next(cfg, w, Tick(now)) == w.(now := now)
  {}

  lemma ClaimOne(cfg: Config, w: World, act: ActionId)
    requires act in w.db.actions && Eligible(w.db.actions[act], 0, w.now)
    ensures var v := Next(cfg, w, Claim([act], 0));
            && v.held == w.held + {Held(Claimed(act, w.db.actions[act]), w.now + cfg.lease)}
            && act in v.db.actions && v.db.actions[act] == Stamp(w.db.actions[act], w.now + cfg.lease)
            && v.db == w.db.(actions := v.db.actions) && v.fired == w.fired && v.now == w.now
            && v.log == w.log && v.read == w.read
  {
    var held := set i | 0 <= i < |[act]| :: Held(Claimed([act][i], w.db.actions[[act][i]]), w.now + cfg.lease);
    assert [act][0] == act;
    assert Held(Claimed(act, w.db.actions[act]), w.now + cfg.lease) in held;
    assert held == {Held(Claimed(act, w.db.actions[act]), w.now + cfg.lease)};
  }

  function Opening(e: Event, m: MandateId): seq<Step> { [Arrive(e), AddMandate(m, Created), Project(m, 1)] }

  function Reclaiming(cfg: Config, act: ActionId, row: Action): seq<Step> {
    [Schedule(act, row), Claim([act], 0), Tick(cfg.lease + 1), Claim([act], 0)]
  }

  lemma RunInThree(cfg: Config, a: seq<Step>, b: seq<Step>, c: seq<Step>)
    ensures Run(cfg, START, a + b + c) == Run(cfg, Run(cfg, Run(cfg, START, a), b), c)
  {
    RunSplit(cfg, START, a, b);
    RunSplit(cfg, START, a + b, c);
  }

  /** So the lease hypothesis is needed: this run, from the empty database, fires one action twice. */
  lemma UntimelyRunFiresTwice(cfg: Config, m: MandateId, c: CycleId, e: Event, act: ActionId, kind: string)
    requires Enrols(e, m, c) && c != "" && kind != "" && kind != Notice.ACTION_TYPE_NOTICE
    ensures var row := Due(m, c, kind);
            var (g, h) := Claims(cfg, act, row);
            Run(cfg, START, Opening(e, m) + Reclaiming(cfg, act, row) + [Fire(g, Go("d1")), Fire(h, Go("d2"))]).fired == [act, act]
  {
    var row := Due(m, c, kind);
    var (g, h) := Claims(cfg, act, row);
    var v := BothClaim(cfg, m, c, e, act, row);
    RunInThree(cfg, Opening(e, m), Reclaiming(cfg, act, row), [Fire(g, Go("d1")), Fire(h, Go("d2"))]);
    ExpiredClaimFiresAgain(cfg, v, g, h);
  }

  lemma BothClaim(cfg: Config, m: MandateId, c: CycleId, e: Event, act: ActionId, row: Action) returns (v: World)
    requires Enrols(e, m, c) && c != "" && row.kind != "" && row == Due(m, c, row.kind)
    ensures v == Run(cfg, Run(cfg, START, Opening(e, m)), Reclaiming(cfg, act, row)) && Books(v.db) && v.fired == []
    ensures v.log == [e] && v.read == map[m := 1] && m in v.db.mandates && v.db.attempts == [] && v.db.outbox == []
    ensures var (g, h) := Claims(cfg, act, row);
            && g in v.held && h in v.held && Fireable(v.db, g.action)
            && v.db.cycles[c].used == 0 && v.db.cycles[c].budget == 4 && v.db.cycles[c].mandate == m
  {
    var w := FirstProjection(cfg, m, c, e);
    v := Reclaimed(cfg, w, act, row);
    BooksTwice(cfg, Opening(e, m), Reclaiming(cfg, act, row));
    EnrolledIsActive(e);
    Ready(v.db, Claimed(act, row), m, c);
  }

  lemma Reclaimed(cfg: Config, w: World, act: ActionId, row: Action) returns (v: World)
    requires w.now == 0 && w.held == {} && act !in w.db.actions
    requires row.state == ActionPending && row.lockedUntil.None? && row.fireAt == 0
    ensures v == Run(cfg, w, Reclaiming(cfg, act, row))
    ensures Claims(cfg, act, row).0 in v.held && Claims(cfg, act, row).1 in v.held
    ensures v.db == w.db.(actions := v.db.actions) && v.fired == w.fired && v.log == w.log && v.read == w.read
  {
    ClaimedTwice(cfg, w, act, row);
    v := Run(cfg, w, Reclaiming(cfg, act, row));
  }

  lemma BooksTwice(cfg: Config, a: seq<Step>, b: seq<Step>)
    ensures Books(Run(cfg, Run(cfg, START, a), b).db)
  {
    BooksAlways(cfg, START, a);
    BooksAlways(cfg, Run(cfg, START, a), b);
  }

  lemma Ready(db: Db, a: ClaimedAction, m: MandateId, c: CycleId)
    requires a.cycle == Some(c) && c != "" && a.kind != "" && a.payloadAmount.None? && c in db.cycles
    requires db.cycles[c].mandate == m && m in db.mandates && db.mandates[m] == Active && db.cycles[c].state == Scheduled
    requires db.cycles[c].deadline >= 0 && db.cycles[c].amount >= 0 && db.cycles[c].used == 0 && db.cycles[c].budget == 4
    requires db.attempts == []
    ensures Fireable(db, a)
  {}

  lemma EnrolledIsActive(e: Event)
    requires e.kind.SubscriptionAuthenticated?
    ensures MandateOf([e]) == Active
  {
    assert [e][1..] == [] && [e][..0] == [];
    assert Sorted([e]) == [e];
    assert FoldMandate(Active, []) == Active;
  }

  // ---------------------------------------------------------------- a key used twice

  /** After a firing, a projection that puts the number of attempts back makes the next firing derive the same key. */
  lemma SameKeyAgain(cfg: Config, v: World, u: World, g: Held, h: Held, key: Key) returns (w: World)
    requires Books(v.db) && Books(u.db) && h in u.held && g.action == h.action && h.action.kind != Notice.ACTION_TYPE_NOTICE
    requires Fireable(v.db, g.action) && g.action.cycle.value in u.db.cycles
    requires Firing.Key(cfg.digest, g.action.cycle.value, v.db.cycles[g.action.cycle.value], g.action) == Some(key)
    requires HasKey(u.db.attempts, key)
    requires var first, now := v.db.cycles[g.action.cycle.value], u.db.cycles[g.action.cycle.value];
             && Projector.SameIdentity(now, first) && now.used == first.used && now.state !in SETTLED_CYCLE_STATES
             && now.mandate in u.db.mandates && u.db.mandates[now.mandate] == Active
    ensures w == Next(cfg, u, Fire(h, Go("d2")))
    ensures w.fired == u.fired + [h.action.id] && w.db.outbox == u.db.outbox
  {
    w := Next(cfg, u, Fire(h, Go("d2")));
    PermissiveAllows();
    Firing.FiresExactlyWhen(cfg.digest, u.db, h.action, Go("d2"));
    FiredRow(cfg, u.db, h.action, Go("d2"));
  }

  lemma FirstFiring(cfg: Config, w: World, g: Held) returns (v: World, key: Key)
    requires Books(w.db) && g in w.held && g.action.kind != Notice.ACTION_TYPE_NOTICE && Fireable(w.db, g.action)
    ensures v == Next(cfg, w, Fire(g, Go("d1"))) && Books(v.db) && v.held == w.held - {g}
    ensures v.fired == w.fired + [g.action.id] && v.log == w.log && v.read == w.read && v.db.mandates == w.db.mandates
    ensures Firing.Key(cfg.digest, g.action.cycle.value, w.db.cycles[g.action.cycle.value], g.action) == Some(key)
    ensures HasKey(v.db.attempts, key)
    ensures |v.db.outbox| == |w.db.outbox| + if HasKey(w.db.attempts, key) then 0 else 1
    ensures g.action.cycle.value in v.db.cycles
    ensures v.db.cycles[g.action.cycle.value] ==
            w.db.cycles[g.action.cycle.value].(used := w.db.cycles[g.action.cycle.value].used + 1)
  {
    FireableFires(cfg, w.db, g.action, "d1");
    FiredRow(cfg, w.db, g.action, Go("d1"));
    v := FiresNow(cfg, w, g, "d1");
    key := Firing.Fire(cfg.digest, w.db, g.action, Go("d1")).1.key;
    if !HasKey(w.db.attempts, key) { assert v.db.attempts[|w.db.attempts|].key == key; }
  }

  /** An event about the mandate that is no failure, names no cycle and leaves the mandate's state alone. */
  predicate Remarks(f: Event, e: Event, m: MandateId) {
    f.mandate == Some(m) && f.id != e.id && f.cycleRef.None? && MandateEvent(f.kind).None? && !IsFailure(f)
  }

  lemma RemarkReads(e: Event, f: Event, m: MandateId, c: CycleId)
    requires Opens(e, m, c) && Remarks(f, e, m)
    ensures Projector.OfMandate([e] + [f], m) == [e] + [f] && Projector.ForCycle([e] + [f], c) == [e]
    ensures Projector.SortedRefs([e] + [f]) == [c] && MandateOf([e] + [f]) == MandateOf([e])
  {
    Reads(e, m, c);
    Projector.ReadingSnoc([e], f, m, c);
    RemarkLeavesState(e, f);
  }

  lemma RemarkLeavesState(e: Event, f: Event)
    requires MandateEvent(f.kind).None?
    ensures MandateOf([e] + [f]) == MandateOf([e])
  {
    OneMoreEvent([e], f);
    assert MandateStep(MandateOf(Side([e], f, false)), f.kind) == MandateOf(Side([e], f, false));
  }

  /** Such an event changes nothing in what a projection writes. */
  lemma RemarkWritesNothing(db: Db, e: Event, f: Event, m: MandateId, c: CycleId)
    requires Opens(e, m, c) && Remarks(f, e, m)
    ensures Projector.ApplyMandate(db, m, [e] + [f]) == Projector.ApplyMandate(db, m, [e])
  {
    Reads(e, m, c);
    RemarkReads(e, f, m, c);
    Projector.RefsAreNamed([e]);
    Projector.RefsAreNamed([e] + [f]);
    var w := Projector.Written(db.cycles, db.actions);
    assert [c][1..] == [];
    assert Projector.WriteCycles(w, m, [e] + [f], [c]) == Projector.WriteCycles(w, m, [e], [c]);
  }

  /** The projection between the two firings: an event has come, and the log still holds no failure to count. */
  lemma ProjectsBack(cfg: Config, w: World, m: MandateId, c: CycleId, e: Event, f: Event) returns (v: World)
    requires Books(w.db) && Enrols(e, m, c) && Remarks(f, e, m)
    requires w.log == [e] + [f] && w.read == map[m := 1] && m in w.db.mandates && c in w.db.cycles && w.db.cycles[c].mandate == m
    ensures v == Next(cfg, w, Project(m, 2)) && Books(v.db)
    ensures v.held == w.held && v.fired == w.fired && v.db.attempts == w.db.attempts && v.db.outbox == w.db.outbox
    ensures c in v.db.cycles && Projector.SameIdentity(v.db.cycles[c], w.db.cycles[c]) && v.db.cycles[c].used == 0
    ensures v.db.cycles[c].state == Scheduled && m in v.db.mandates && v.db.mandates[m] == Active
  {
    RemarkReads(e, f, m, c);
    RemarkWritesNothing(w.db, e, f, m, c);
    Recounted(w.db, m, c, e);
    ProjectKeepsBooks(w.db, m, [e] + [f]);
    v := Projects(cfg, w, m, [e] + [f]);
  }

  lemma Projects(cfg: Config, w: World, m: MandateId, events: seq<Event>) returns (v: World)
    requires m in w.db.mandates && ReadSoFar(w, m) <= |w.log| && Projector.OfMandate(w.log, m) == events
    requires Projector.ApplyMandate(w.db, m, events).Some?
    ensures v == Next(cfg, w, Project(m, |w.log|))
    ensures v == w.(db := Projector.ApplyMandate(w.db, m, events).value, read := w.read[m := |w.log|])
  {
    assert w.log[..|w.log|] == w.log;
    v := Next(cfg, w, Project(m, |w.log|));
  }

  lemma Recounted(db: Db, m: MandateId, c: CycleId, e: Event)
    requires Books(db) && Enrols(e, m, c) && c in db.cycles && db.cycles[c].mandate == m
    ensures var r := Projector.ApplyMandate(db, m, [e]);
            && r.Some? && r.value.attempts == db.attempts && r.value.outbox == db.outbox
            && c in r.value.cycles && Projector.SameIdentity(r.value.cycles[c], db.cycles[c])
            && r.value.cycles[c].used == 0 && r.value.cycles[c].state == Scheduled
            && m in r.value.mandates && r.value.mandates[m] == Active
  {
    ProjectsOne(db, m, c, e);
    Projector.ApplyMandateFacts(db, m, [e]);
    EnrolledIsActive(e);
  }

  lemma FiresThenProjects(cfg: Config, w: World, g: Held, m: MandateId, c: CycleId, e: Event, f: Event)
    returns (v1: World, v2: World, v3: World, key: Key)
    requires Books(w.db) && w.db.attempts == [] && w.db.outbox == []
    requires Enrols(e, m, c) && Remarks(f, e, m) && w.log == [e] && w.read == map[m := 1] && m in w.db.mandates
    requires g in w.held && g.action.kind != Notice.ACTION_TYPE_NOTICE
    requires Fireable(w.db, g.action) && g.action.cycle == Some(c) && w.db.cycles[c].mandate == m
    ensures v1 == Next(cfg, w, Fire(g, Go("d1"))) && v2 == Next(cfg, v1, Arrive(f)) && v3 == Next(cfg, v2, Project(m, 2))
    ensures v3.held == w.held - {g} && v3.fired == w.fired + [g.action.id] && Books(v3.db)
    ensures Firing.Key(cfg.digest, c, w.db.cycles[c], g.action) == Some(key)
    ensures HasKey(v3.db.attempts, key) && |v3.db.outbox| == 1
    ensures c in v3.db.cycles && Projector.SameIdentity(v3.db.cycles[c], w.db.cycles[c]) && v3.db.cycles[c].used == 0
    ensures v3.db.cycles[c].state == Scheduled && m in v3.db.mandates && v3.db.mandates[m] == Active
  {
    v1, key := FirstFiring(cfg, w, g);
    v2 := v1.(log := [e] + [f]);
    Arrives(cfg, v1, f);
    v3 := ProjectsBack(cfg, v2, m, c, e, f);
  }

  lemma ReusesFrom(cfg: Config, w: World, g: Held, h: Held, m: MandateId, c: CycleId, e: Event, f: Event)
    returns (v1: World, v2: World, v3: World, v4: World)
    requires Books(w.db) && w.db.attempts == [] && w.db.outbox == []
    requires Enrols(e, m, c) && Remarks(f, e, m) && w.log == [e] && w.read == map[m := 1] && m in w.db.mandates
    requires g in w.held && h in w.held && g != h && g.action == h.action && g.action.kind != Notice.ACTION_TYPE_NOTICE
    requires Fireable(w.db, g.action) && g.action.cycle == Some(c) && w.db.cycles[c].mandate == m && w.db.cycles[c].used == 0
    ensures v1 == Next(cfg, w, Fire(g, Go("d1"))) && v2 == Next(cfg, v1, Arrive(f)) && v3 == Next(cfg, v2, Project(m, 2))
    ensures v4 == Next(cfg, v3, Fire(h, Go("d2")))
    ensures v4.fired == w.fired + [g.action.id, h.action.id] && |v4.db.outbox| == 1
  {
    var key;
    v1, v2, v3, key := FiresThenProjects(cfg, w, g, m, c, e, f);
    v4 := SameKeyAgain(cfg, w, v3, g, h, key);
    assert w.fired + [g.action.id] + [h.action.id] == w.fired + [g.action.id, h.action.id];
  }

  lemma Chained(cfg: Config, w: World, v1: World, v2: World, v3: World, v4: World, q: Step, r: Step, s: Step, t: Step)
    requires v1 == Next(cfg, w, q) && v2 == Next(cfg, v1, r) && v3 == Next(cfg, v2, s) && v4 == Next(cfg, v3, t)
    ensures Run(cfg, w, [q, r, s, t]) == v4
  {
    RunFour(cfg, w, q, r, s, t);
  }

  /** Fire, a new event arrives, its projection, and the other claim's fire. */
  function FiringTwice(g: Held, f: Event, m: MandateId, h: Held): seq<Step> {
    [Fire(g, Go("d1")), Arrive(f), Project(m, 2), Fire(h, Go("d2"))]
  }

  /**
   * The projector counts failures on the log, not firings: when any event of the mandate makes it project between
   * two firings and finds no failure, it puts the number back, and the second firing reuses the first one's key.
   * Both report a firing; one intent exists.
   */
  lemma ResetBudgetReusesKey(cfg: Config, m: MandateId, c: CycleId, e: Event, f: Event, act: ActionId, kind: string)
    requires Enrols(e, m, c) && Remarks(f, e, m) && c != "" && kind != "" && kind != Notice.ACTION_TYPE_NOTICE
    ensures var row := Due(m, c, kind);
            var (g, h) := Claims(cfg, act, row);
            var w := Run(cfg, START, Opening(e, m) + Reclaiming(cfg, act, row) + FiringTwice(g, f, m, h));
            w.fired == [act, act] && |w.db.outbox| == 1
  {
    var row := Due(m, c, kind);
    var (g, h) := Claims(cfg, act, row);
    var v := BothClaim(cfg, m, c, e, act, row);
    RunInThree(cfg, Opening(e, m), Reclaiming(cfg, act, row), FiringTwice(g, f, m, h));
    var v1, v2, v3, v4 := ReusesFrom(cfg, v, g, h, m, c, e, f);
    Chained(cfg, v, v1, v2, v3, v4, Fire(g, Go("d1")), Arrive(f), Project(m, 2), Fire(h, Go("d2")));
  }

  // ---------------------------------------------------------------- a stale answer

  /** Both relays pick the row up before either has settled it, and both are told nothing. */
  function BothAsk(id: nat): seq<Step> { [PickUp(id), PickUp(id), Submit(id), Submit(id)] }

  /** One of them settles; the reconciler sees the ambiguous row, asks by key and settles it as sent. */
  function Reconciled(id: nat, found: Option<Response>): seq<Step> {
    [Settle(id, Ambiguous), PickUpAmbiguous(id), Query(id), SettleQuery(id, found)]
  }

  /**
   * A row in state sent does not stay there: a second relay that was told nothing before the reconciler found the
   * truth settles its own answer afterwards, and puts the row back to ambiguous.
   */
  lemma StaleAnswerUnsettles(cfg: Config, w: World, id: nat) returns (found: Option<Response>, sent: World, unsent: World)
    requires Books(w.db) && id < |w.db.outbox| && Relay.Claimable(w.db.outbox[id])
    requires w.db.outbox[id].key !in w.provider.debits && TimesOut(cfg.faults, w.db.outbox[id].key)
    ensures sent == Run(cfg, Run(cfg, w, BothAsk(id)), Reconciled(id, found))
    ensures unsent == Next(cfg, sent, Settle(id, Ambiguous)) && unsent != sent
    ensures id < |sent.db.outbox| == |unsent.db.outbox|
    ensures sent.db.outbox[id].state == OutboxSent && unsent.db.outbox[id].state == OutboxAmbiguous
  {
    found := Some(Revealed(w.db.outbox[id].key, ChargedBehindTimeout(cfg.faults, w.db.outbox[id].key)));
    var asked := BothTimeOut(cfg, w, id);
    sent := FoundOut(cfg, asked, id, found);
    unsent := Next(cfg, sent, Settle(id, Ambiguous));
    Unsettles(cfg, sent, id);
  }

  lemma Unsettles(cfg: Config, w: World, id: nat)
    requires Books(w.db) && id < |w.db.outbox| && (id, Ambiguous) in w.answers
    ensures var v := Next(cfg, w, Settle(id, Ambiguous));
            && Books(v.db) && |v.db.outbox| == |w.db.outbox|
            && v == w.(db := v.db, answers := w.answers - multiset{(id, Ambiguous)})
            && v.db.outbox[id].state == OutboxAmbiguous && v.db.outbox[id].key == w.db.outbox[id].key
  {
    SettledRows(w.db, id, OutboxAmbiguous, AttemptAmbiguous);
    SettleKeepsBooks(w.db, id, OutboxAmbiguous, AttemptAmbiguous);
  }

  /** One submission that times out. */
  lemma TimesOutOnce(cfg: Config, w: World, id: nat) returns (v: World)
    requires id < |w.db.outbox| && id in w.relaying
    requires w.db.outbox[id].key !in w.provider.debits && TimesOut(cfg.faults, w.db.outbox[id].key)
    ensures v == Next(cfg, w, Submit(id)) && v.db == w.db && v.provider.debits == w.provider.debits
    ensures v.relaying == w.relaying - multiset{id} && v.answers == w.answers + multiset{(id, Ambiguous)}
    ensures w.db.outbox[id].key in v.provider.hidden
    ensures v.provider.hidden[w.db.outbox[id].key] == ChargedBehindTimeout(cfg.faults, w.db.outbox[id].key)
  {
    v := Next(cfg, w, Submit(id));
  }

  lemma PickedUp(cfg: Config, w: World, id: nat) returns (v: World)
    requires id < |w.db.outbox| && Relay.Claimable(w.db.outbox[id])
    ensures v == Next(cfg, w, PickUp(id)) && v == w.(relaying := w.relaying + multiset{id})
  {
    v := Next(cfg, w, PickUp(id));
  }

  lemma BothTimeOut(cfg: Config, w: World, id: nat) returns (v: World)
    requires id < |w.db.outbox| && Relay.Claimable(w.db.outbox[id])
    requires w.db.outbox[id].key !in w.provider.debits && TimesOut(cfg.faults, w.db.outbox[id].key)
    ensures v == Run(cfg, w, BothAsk(id)) && v.db == w.db
    ensures v.answers == w.answers + multiset{(id, Ambiguous), (id, Ambiguous)}
    ensures v.provider.debits == w.provider.debits && v.db.outbox[id].key in v.provider.hidden
    ensures v.provider.hidden[v.db.outbox[id].key] == ChargedBehindTimeout(cfg.faults, v.db.outbox[id].key)
  {
    var w1 := PickedUp(cfg, w, id);
    var w2 := PickedUp(cfg, w1, id);
    var w3 := TimesOutOnce(cfg, w2, id);
    v := TimesOutOnce(cfg, w3, id);
    RunFour(cfg, w, PickUp(id), PickUp(id), Submit(id), Submit(id));
  }

  lemma FoundOut(cfg: Config, w: World, id: nat, found: Option<Response>) returns (v: World)
    requires Books(w.db) && id < |w.db.outbox| && w.answers[(id, Ambiguous)] >= 2
    requires w.db.outbox[id].key !in w.provider.debits && w.db.outbox[id].key in w.provider.hidden
    requires found == Some(Revealed(w.db.outbox[id].key, w.provider.hidden[w.db.outbox[id].key]))
    ensures v == Run(cfg, w, Reconciled(id, found))
    ensures Books(v.db) && id < |v.db.outbox| && v.db.outbox[id].state == OutboxSent && (id, Ambiguous) in v.answers
  {
    Unsettles(cfg, w, id);
    var w1 := Next(cfg, w, Settle(id, Ambiguous));
    var w2 := w1.(querying := w1.querying + multiset{id});
    assert Next(cfg, w1, PickUpAmbiguous(id)) == w2;
    var w3 := Asked(cfg, w2, id, found);
    v := Next(cfg, w3, SettleQuery(id, found));
    RunFour(cfg, w, Settle(id, Ambiguous), PickUpAmbiguous(id), Query(id), SettleQuery(id, found));
    Resolves(cfg, w3, id, found);
  }

  lemma Resolves(cfg: Config, w: World, id: nat, found: Option<Response>)
    requires Books(w.db) && id < |w.db.outbox| && (id, found) in w.found && found.Some? && Definitive(found.value)
    ensures var v := Next(cfg, w, SettleQuery(id, found));
            && Books(v.db) && |v.db.outbox| == |w.db.outbox| && v.answers == w.answers && v.db.outbox[id].state == OutboxSent
  {
    var attempt := if found.value.Accepted? then AttemptFired else AttemptFailed;
    SettledRows(w.db, id, OutboxSent, attempt);
    SettleKeepsBooks(w.db, id, OutboxSent, attempt);
  }

  lemma Asked(cfg: Config, w: World, id: nat, found: Option<Response>) returns (v: World)
    requires id in w.querying && id < |w.db.outbox|
    requires w.db.outbox[id].key !in w.provider.debits && w.db.outbox[id].key in w.provider.hidden
    requires found == Some(Revealed(w.db.outbox[id].key, w.provider.hidden[w.db.outbox[id].key]))
    ensures v == Next(cfg, w, Query(id)) && v.db == w.db && v.answers == w.answers && (id, found) in v.found
  {
    v := Next(cfg, w, Query(id));
    assert Fetch(w.provider, w.db.outbox[id].key).1 == found;
    assert (id, found) in v.found;
  }
}
