/** What the claim lease guarantees, and what it takes. */
module Leases {
  import opened Common
  import opened Projection
  import opened Tables
  import opened Claiming
  import opened Provider
  import opened Protocol
  import Firing
  import Notice
  import Projector
  import Relay

  /** The hypothesis the lease rests on: a firing commits before its claim's lease has run out. */
  ghost predicate Timely(w: World, s: Step) {
    s.Fire? ==> w.now <= s.held.until
  }

  ghost predicate RunTimely(cfg: Config, w: World, steps: seq<Step>)
    decreases steps
  {
    steps == [] || (Timely(w, steps[0]) && RunTimely(cfg, Next(cfg, w, steps[0]), steps[1..]))
  }

  ghost predicate LiveHold(w: World, h: Held) { h in w.held && w.now <= h.until }

  /** An unexpired claim is its row's current claim, or the row has been settled under it. */
  ghost predicate HoldsOk(w: World) {
    && (forall h :: h in w.held ==> h.action.id in w.db.actions)
    && (forall h :: LiveHold(w, h) ==>
          !Live(w.db.actions[h.action.id]) || w.db.actions[h.action.id].lockedUntil == Some(h.until))
    && (forall g, h :: LiveHold(w, g) && LiveHold(w, h) && g.action.id == h.action.id ==> g == h)
  }

  ghost predicate FiredOk(w: World) {
    && (forall i, j :: 0 <= i < j < |w.fired| ==> w.fired[i] != w.fired[j])
    && (forall id :: id in w.fired ==>
          && id in w.db.actions && !Live(w.db.actions[id])
          && forall h :: LiveHold(w, h) ==> h.action.id != id)
  }

  /** Actions never disappear, and one that is done or cancelled never becomes claimable again. */
  ghost predicate ActionsSettle(a: map<ActionId, Action>, b: map<ActionId, Action>) {
    forall id :: id in a ==> id in b && (Live(b[id]) ==> Live(a[id]))
  }

  /** Rows change only by being settled, apart from claiming and scheduling. */
  ghost predicate OnlySettles(a: map<ActionId, Action>, b: map<ActionId, Action>) {
    && a.Keys == b.Keys
    && forall id :: id in a ==> b[id] == a[id] || !Live(b[id])
  }

  lemma StepSettles(cfg: Config, w: World, s: Step)
    ensures ActionsSettle(w.db.actions, Next(cfg, w, s).db.actions)
    ensures !s.Claim? && !s.Schedule? ==> OnlySettles(w.db.actions, Next(cfg, w, s).db.actions)
  {
    if Enabled(w, s) {
      match s
      case Project(m, n) =>
        var events := Projector.OfMandate(w.log[..n], m);
        if Projector.ApplyMandate(w.db, m, events).Some? { ProjectSettles(w.db, m, events); }
      case Fire(h, c) => Firing.FireSettlesOwnAction(cfg.digest, w.db, h.action, c);
      case SendNotice(h, c) => NoticeSettles(w.db, h.action, c);
      case Settle(id, r) => assert Relay.SettleSubmitted(w.db, id, r).actions == w.db.actions;
      case SettleQuery(id, r) => assert Relay.SettleFetched(w.db, id, r).actions == w.db.actions;
      case _ => OthersSettle(cfg, w, s);
    }
  }

  lemma OthersSettle(cfg: Config, w: World, s: Step)
    requires Enabled(w, s) && !s.Project? && !s.Fire? && !s.SendNotice? && !s.Settle? && !s.SettleQuery?
    ensures ActionsSettle(w.db.actions, Next(cfg, w, s).db.actions)
    ensures !s.Claim? && !s.Schedule? ==> OnlySettles(w.db.actions, Next(cfg, w, s).db.actions)
  {}

  lemma NoticeSettles(db: Db, a: ClaimedAction, c: Notice.NoticeConditions)
    ensures OnlySettles(db.actions, Notice.FireNotice(db, a, c).0.actions)
  {
    Notice.NoticeSettlesOwnAction(db, a, c);
  }

  lemma ProjectSettles(db: Db, m: MandateId, events: seq<Event>)
    requires Projector.ApplyMandate(db, m, events).Some?
    ensures OnlySettles(db.actions, Projector.ApplyMandate(db, m, events).value.actions)
  {
    if events != [] {
      Projector.RefsAreNamed(events);
      Projector.WriteCyclesActions(Projector.Written(db.cycles, db.actions), m, events, Projector.SortedRefs(events));
    }
  }

  lemma ClaimKeepsLeases(cfg: Config, w: World, picked: seq<ActionId>, due: Time, v: World)
    requires Enabled(w, Claim(picked, due)) && HoldsOk(w) && FiredOk(w)
    requires v.now == w.now && v.fired == w.fired && v.db.actions == ClaimRows(w.db.actions, picked, w.now + cfg.lease)
    requires v.held == w.held + set i | 0 <= i < |picked| :: Held(Claimed(picked[i], w.db.actions[picked[i]]), w.now + cfg.lease)
    ensures HoldsOk(v) && FiredOk(v)
  {
    assert forall i :: 0 <= i < |picked| ==> Eligible(w.db.actions[picked[i]], due, w.now);
    assert forall h :: LiveHold(w, h) ==> h.action.id !in picked;
  }

  lemma OtherKeepsLeases(w: World, v: World)
    requires HoldsOk(w) && FiredOk(w) && w.now <= v.now && v.held <= w.held && v.fired == w.fired
    requires forall id :: id in w.db.actions ==>
               id in v.db.actions && (v.db.actions[id] == w.db.actions[id] || !Live(v.db.actions[id]))
    ensures HoldsOk(v) && FiredOk(v)
  {}

  lemma StepKeepsLeases(cfg: Config, w: World, s: Step)
    requires HoldsOk(w) && FiredOk(w) && Timely(w, s)
    ensures HoldsOk(Next(cfg, w, s)) && FiredOk(Next(cfg, w, s))
  {
    if Enabled(w, s) {
      match s
      case Claim(picked, due) => ClaimKeepsLeases(cfg, w, picked, due, Next(cfg, w, s));
      case Fire(h, c) => FireStepKeepsLeases(cfg, w, h, c);
      case _ =>
        OthersOnlySettle(cfg, w, s);
        OtherKeepsLeases(w, Next(cfg, w, s));
    }
  }

  lemma FireStepKeepsLeases(cfg: Config, w: World, h: Held, c: Firing.Conditions)
    requires HoldsOk(w) && FiredOk(w) && Timely(w, Fire(h, c)) && Enabled(w, Fire(h, c))
    ensures HoldsOk(Next(cfg, w, Fire(h, c))) && FiredOk(Next(cfg, w, Fire(h, c)))
  {
    Firing.FireSettlesOwnAction(cfg.digest, w.db, h.action, c);
    FireKeepsLeases(w, Next(cfg, w, Fire(h, c)), h);
  }

  lemma OthersOnlySettle(cfg: Config, w: World, s: Step)
    requires Enabled(w, s) && !s.Claim? && !s.Fire?
    ensures var v := Next(cfg, w, s);
            && w.now <= v.now && v.held <= w.held && v.fired == w.fired
            && forall id :: id in w.db.actions ==>
                 id in v.db.actions && (v.db.actions[id] == w.db.actions[id] || !Live(v.db.actions[id]))
  {
    if !s.Schedule? { StepSettles(cfg, w, s); }
  }

  lemma FireKeepsLeases(w: World, v: World, h: Held)
    requires HoldsOk(w) && FiredOk(w) && LiveHold(w, h) && OnlySettles(w.db.actions, v.db.actions)
    requires v.now == w.now && v.held == w.held - {h}
    requires || v.fired == w.fired
             || (v.fired == w.fired + [h.action.id] && h.action.id in v.db.actions && !Live(v.db.actions[h.action.id]))
    ensures HoldsOk(v) && FiredOk(v)
  {
    assert h.action.id !in w.fired;
  }

  lemma {:induction false} LeasesAlways(cfg: Config, w: World, steps: seq<Step>)
    requires HoldsOk(w) && FiredOk(w) && RunTimely(cfg, w, steps)
    ensures FiredOk(Run(cfg, w, steps))
    decreases steps
  {
    if steps != [] {
      StepKeepsLeases(cfg, w, steps[0]);
      LeasesAlways(cfg, Next(cfg, w, steps[0]), steps[1..]);
    }
  }

  /**
   * If every firing commits before its claim's lease runs out, no scheduled action is fired twice,
   * in any run with crashes, expiries and reclaims.
   */
  lemma NoActionFiresTwice(cfg: Config, steps: seq<Step>, i: nat, j: nat)
    requires RunTimely(cfg, START, steps)
    requires i < j < |Run(cfg, START, steps).fired|
    ensures Run(cfg, START, steps).fired[i] != Run(cfg, START, steps).fired[j]
  {
    LeasesAlways(cfg, START, steps);
  }

  /** In any run at all, an action that is done or cancelled stays out of every later claim. */
  lemma {:induction false} SettledActionsStaySettled(cfg: Config, w: World, steps: seq<Step>, id: ActionId)
    requires id in w.db.actions && !Live(w.db.actions[id])
    ensures id in Run(cfg, w, steps).db.actions && !Live(Run(cfg, w, steps).db.actions[id])
    ensures forall picked, due :: Enabled(Run(cfg, w, steps), Claim(picked, due)) ==> id !in picked
    decreases steps
  {
    if steps != [] {
      StepSettles(cfg, w, steps[0]);
      SettledActionsStaySettled(cfg, Next(cfg, w, steps[0]), steps[1..], id);
    }
  }

  /** And once a cycle's actions have been cancelled, whatever runs later, none of them is ever claimed. */
  lemma CancelledStayOut(cfg: Config, w: World, cycle: CycleId, steps: seq<Step>, id: ActionId)
    requires id in w.db.actions && w.db.actions[id].cycle == Some(cycle)
    ensures var v := Run(cfg, Next(cfg, w, CancelCycle(cycle)), steps);
            && id in v.db.actions && !Live(v.db.actions[id])
            && forall picked, due :: Enabled(v, Claim(picked, due)) ==> id !in picked
  {
    CancelledForGood(w.db.actions, cycle, id);
    var v := Next(cfg, w, CancelCycle(cycle));
    assert v.db.actions == CancelForCycle(w.db.actions, cycle);
    SettledActionsStaySettled(cfg, v, steps, id);
  }
}
