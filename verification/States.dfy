/** The domain's state vocabulary and transition tables (prayas/domain/states.py). */
module States {

  datatype MandateState = Created | Active | Paused | AtRisk | Revoked | ReEnrolling | Expired

  datatype CycleState =
    | Scheduled | PdnSent | PdnFailed | Deferred | Executing | Succeeded
    | BudgetExhausted | StoppedEconomic | StoppedHard | DeferredIntervention | Superseded

  function MandateTransitions(s: MandateState): set<MandateState> {
    match s
    case Created => {Active, Expired}
    case Active => {Paused, AtRisk, Expired}
    case Paused => {Active, Expired}
    case AtRisk => {Active, Revoked, Expired}
    case Revoked => {ReEnrolling}
    case ReEnrolling => {Active, Expired}
    case Expired => {}
  }

  function CycleTransitions(s: CycleState): set<CycleState> {
    match s
    case Scheduled => {PdnSent, PdnFailed, Superseded}
    case PdnSent => {Executing, PdnFailed, Superseded}
    case PdnFailed => {Deferred, Superseded}
    case Deferred => {PdnSent, Superseded}
    case Executing =>
      {Succeeded, BudgetExhausted, StoppedEconomic, StoppedHard, DeferredIntervention, Superseded}
    case Succeeded | BudgetExhausted | StoppedEconomic | StoppedHard | DeferredIntervention | Superseded => {}
  }

  predicate CanTransitionMandate(current: MandateState, proposed: MandateState) {
    proposed in MandateTransitions(current)
  }

  /** Terminal means: nothing onward in the table. */
  predicate MandateTerminal(s: MandateState) { MandateTransitions(s) == {} }

  predicate CycleTerminal(s: CycleState) { CycleTransitions(s) == {} }

  const CYCLE_PAID: set<CycleState> := {Succeeded, Superseded}

  /** The executor's own list of states in which nothing fires (prayas/executor/firing.py). */
  const SETTLED_CYCLE_STATES: set<CycleState> :=
    {Succeeded, Superseded, BudgetExhausted, StoppedEconomic, StoppedHard}

  /** The executor's list is the table's terminal states less one: a deferred intervention still fires. */
  lemma SettledOmitsOneTerminalState(s: CycleState)
    ensures s in SETTLED_CYCLE_STATES <==> CycleTerminal(s) && s != DeferredIntervention
    ensures s in CYCLE_PAID ==> s in SETTLED_CYCLE_STATES
  {
    match s
    case Scheduled => assert PdnSent in CycleTransitions(s);
    case PdnSent => assert Executing in CycleTransitions(s);
    case PdnFailed => assert Deferred in CycleTransitions(s);
    case Deferred => assert PdnSent in CycleTransitions(s);
    case Executing => assert Succeeded in CycleTransitions(s);
    case _ =>
  }

  /** Paid and stopped are the two ways to be settled. */
  lemma PaidOrStopped(s: CycleState)
    requires s in SETTLED_CYCLE_STATES
    ensures s in CYCLE_PAID <==> s !in {BudgetExhausted, StoppedEconomic, StoppedHard}
  {}

  /** A payment out of band can supersede a cycle wherever it stands. */
  lemma SupersededFromAnywhere(s: CycleState)
    ensures CycleTerminal(s) <==> Superseded !in CycleTransitions(s)
  {
    if CycleTerminal(s) { assert Superseded !in CycleTransitions(s); }
  }

  /** The states `s` is at most `n` transitions from. */
  function Reachable(s: MandateState, n: nat): set<MandateState> {
    if n == 0 then {s} else Reachable(s, n - 1) + set t, u | t in Reachable(s, n - 1) && u in MandateTransitions(t) :: u
  }

  /** Only expiry is for good: from every other state, revoked included, a mandate can become active again. */
  lemma OnlyExpiryIsFinal(s: MandateState)
    ensures MandateTerminal(s) <==> s == Expired
    ensures Active in Reachable(s, 2) <==> s != Expired
  {
    assert Reachable(s, 1) == {s} + MandateTransitions(s) by {
      assert Reachable(s, 0) == {s};
    }
    match s
    case Revoked => assert ReEnrolling in Reachable(s, 1) && Active in MandateTransitions(ReEnrolling);
    case Expired =>
      assert Reachable(s, 1) == {Expired};
      assert Reachable(s, 2) == {Expired};
    case _ => assert Active in Reachable(s, 1);
  }
}
