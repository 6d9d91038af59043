/** A payment, once projected, is final; and when it is not. */
module LateCapture {
  import opened Common
  import opened Projection
  import opened Tables
  import opened Claiming
  import opened Provider
  import opened Protocol
  import opened States
  import opened Budget
  import Firing
  import Notice
  import Projector

  ghost predicate PaidBy(e: Event, m: MandateId, c: CycleId) {
    e.mandate == Some(m) && e.cycleRef == Some(c) && IsSuccess(e)
  }

  ghost predicate PaidOnRecord(w: World, c: CycleId)
    requires c in w.db.cycles
  {
    var m := w.db.cycles[c].mandate;
    exists i :: 0 <= i < |w.log| && i < ReadSoFar(w, m) && PaidBy(w.log[i], m, c)
  }

  ghost predicate NamedOnRecord(w: World, c: CycleId)
    requires c in w.db.cycles
  {
    exists e :: e in w.log && e.mandate == Some(w.db.cycles[c].mandate) && e.cycleRef == Some(c)
  }

  /** Every stored payment rests on a success its own mandate's projection has read. */
  ghost predicate PaymentsGrounded(w: World) {
    forall c :: c in w.db.cycles ==>
      NamedOnRecord(w, c) && (w.db.cycles[c].state in CYCLE_PAID ==> PaidOnRecord(w, c))
  }

  ghost predicate PaidStays(w: World, v: World) {
    forall c :: c in w.db.cycles && w.db.cycles[c].state in CYCLE_PAID ==>
      && c in v.db.cycles && v.db.cycles[c].state in CYCLE_PAID
      && |w.db.outbox| <= |v.db.outbox|
      && forall i :: |w.db.outbox| <= i < |v.db.outbox| ==> v.db.outbox[i].request.cycle != c
  }

  lemma ProjectKeepsPaid(cfg: Config, w: World, s: Step)
    requires Enabled(w, s) && s.Project? && RefsOwned(w.log) && PaymentsGrounded(w)
    ensures PaymentsGrounded(Next(cfg, w, s)) && PaidStays(w, Next(cfg, w, s))
  {
    var v := Next(cfg, w, s);
    var events := Projector.OfMandate(w.log[..s.upTo], s.mandate);
    Projector.OfMandateFacts(w.log[..s.upTo], s.mandate);
    if events != [] && Projector.ApplyMandate(w.db, s.mandate, events).Some? {
      Projector.ApplyMandateFacts(w.db, s.mandate, events);
      forall c | c in v.db.cycles
        ensures NamedOnRecord(v, c)
        ensures v.db.cycles[c].state in CYCLE_PAID ==> PaidOnRecord(v, c)
        ensures c in w.db.cycles && w.db.cycles[c].state in CYCLE_PAID ==> v.db.cycles[c].state in CYCLE_PAID
      {
        ProjectGroundsCycle(w, v, s.mandate, s.upTo, events, c);
      }
    } else {
      forall c | c in v.db.cycles
        ensures NamedOnRecord(v, c)
        ensures v.db.cycles[c].state in CYCLE_PAID ==> PaidOnRecord(v, c)
      {
        assert NamedOnRecord(w, c);
        if w.db.cycles[c].state in CYCLE_PAID {
          var i :| 0 <= i < |w.log| && i < ReadSoFar(w, w.db.cycles[c].mandate) && PaidBy(w.log[i], w.db.cycles[c].mandate, c);
          assert PaidBy(v.log[i], v.db.cycles[c].mandate, c);
        }
      }
    }
  }

  lemma ProjectGroundsCycle(w: World, v: World, m: MandateId, n: nat, events: seq<Event>, c: CycleId)
    requires RefsOwned(w.log) && PaymentsGrounded(w) && ReadSoFar(w, m) <= n <= |w.log|
    requires v.log == w.log && v.read == w.read[m := n] && events == Projector.OfMandate(w.log[..n], m)
    requires Projector.Rewrites(w.db.cycles, v.db.cycles, m, events, Projector.SortedRefs(events))
    requires forall r :: r in Projector.SortedRefs(events) <==> Projector.Names(events, r)
    requires c in v.db.cycles
    ensures NamedOnRecord(v, c)
    ensures v.db.cycles[c].state in CYCLE_PAID ==> PaidOnRecord(v, c)
    ensures c in w.db.cycles && w.db.cycles[c].state in CYCLE_PAID ==> v.db.cycles[c].state in CYCLE_PAID
  {
    if Projector.Names(events, c) && Projector.Dated(Projector.ForCycle(events, c)) {
      NamedCycleOwned(w, n, m, events, c);
      assert c in w.db.cycles ==> v.db.cycles[c].mandate == w.db.cycles[c].mandate;
      DatedCycleGrounded(w, v, n, m, events, c);
    } else {
      UntouchedCycleGrounded(w, v, m, n, c);
    }
  }

  /** Under exclusive references, a cycle the mandate's events name is that mandate's own. */
  lemma NamedCycleOwned(w: World, n: nat, m: MandateId, events: seq<Event>, c: CycleId)
    requires RefsOwned(w.log) && PaymentsGrounded(w) && n <= |w.log|
    requires events == Projector.OfMandate(w.log[..n], m) && Projector.Names(events, c)
    ensures c in w.db.cycles ==> w.db.cycles[c].mandate == m
    ensures exists e :: e in w.log && e.mandate == Some(m) && e.cycleRef == Some(c)
  {
    Projector.OfMandateFacts(w.log[..n], m);
    var e :| e in events && e.cycleRef == Some(c);
    assert e in w.log && e.mandate == Some(m);
    if c in w.db.cycles {
      assert NamedOnRecord(w, c);
      var f :| f in w.log && f.mandate == Some(w.db.cycles[c].mandate) && f.cycleRef == Some(c);
      assert SameRef(e, f);
    }
  }

  lemma DatedCycleGrounded(w: World, v: World, n: nat, m: MandateId, events: seq<Event>, c: CycleId)
    requires PaymentsGrounded(w) && v.log == w.log && n <= |w.log| && ReadSoFar(w, m) <= n == ReadSoFar(v, m)
    requires events == Projector.OfMandate(w.log[..n], m) && Projector.Names(events, c)
    requires exists e :: e in w.log && e.mandate == Some(m) && e.cycleRef == Some(c)
    requires c in v.db.cycles && v.db.cycles[c].mandate == m && (c in w.db.cycles ==> w.db.cycles[c].mandate == m)
    requires v.db.cycles[c].state == ProjectCycle(Projector.ForCycle(events, c)).state
    ensures NamedOnRecord(v, c)
    ensures v.db.cycles[c].state in CYCLE_PAID ==> PaidOnRecord(v, c)
    ensures c in w.db.cycles && w.db.cycles[c].state in CYCLE_PAID ==> v.db.cycles[c].state in CYCLE_PAID
  {
    Projector.OfMandateFacts(w.log[..n], m);
    Projector.ForCycleFacts(events, c);
    PaidExactlyWhen(Projector.ForCycle(events, c));
    if c in w.db.cycles && w.db.cycles[c].state in CYCLE_PAID {
      assert PaidOnRecord(w, c);
      var i :| 0 <= i < |w.log| && i < ReadSoFar(w, m) && PaidBy(w.log[i], m, c);
      Projector.PrefixContains(w.log, n, i, m);
      assert w.log[i] in Projector.ForCycle(events, c);
    }
    if v.db.cycles[c].state in CYCLE_PAID {
      var p :| p in Projector.ForCycle(events, c) && IsSuccess(p);
      assert p in w.log[..n];
      var i :| 0 <= i < n && w.log[..n][i] == p;
      assert PaidBy(v.log[i], m, c);
    }
  }

  lemma UntouchedCycleGrounded(w: World, v: World, m: MandateId, n: nat, c: CycleId)
    requires PaymentsGrounded(w) && v.log == w.log && ReadSoFar(w, m) <= n
    requires v.read == w.read[m := n]
    requires c in w.db.cycles && c in v.db.cycles && v.db.cycles[c] == w.db.cycles[c]
    ensures NamedOnRecord(v, c)
    ensures v.db.cycles[c].state in CYCLE_PAID ==> PaidOnRecord(v, c)
  {
    assert NamedOnRecord(w, c);
    if w.db.cycles[c].state in CYCLE_PAID {
      assert PaidOnRecord(w, c);
      var k := w.db.cycles[c].mandate;
      var i :| 0 <= i < |w.log| && i < ReadSoFar(w, k) && PaidBy(w.log[i], k, c);
      assert PaidBy(v.log[i], k, c);
    }
  }

  lemma FireKeepsPaid(cfg: Config, w: World, s: Step)
    requires Books(w.db) && Enabled(w, s) && s.Fire? && PaymentsGrounded(w)
    ensures PaymentsGrounded(Next(cfg, w, s)) && PaidStays(w, Next(cfg, w, s))
  {
    FireKeepsFrame(cfg, w.db, s.held.action, s.conditions);
    FrameKeepsPaid(w, Next(cfg, w, s));
  }

  lemma FrameKeepsPaid(w: World, v: World)
    requires PaymentsGrounded(w) && FireFrame(w.db, v.db) && v.log == w.log && v.read == w.read
    ensures PaymentsGrounded(v) && PaidStays(w, v)
  {
    GroundsCarryOver(w, v);
  }

  /** Steps that leave the log, and each cycle's mandate and state, alone keep payments grounded. */
  lemma GroundsCarryOver(w: World, v: World)
    requires PaymentsGrounded(w) && w.log <= v.log && v.read == w.read && v.db.cycles.Keys == w.db.cycles.Keys
    requires forall c :: c in w.db.cycles ==>
               v.db.cycles[c].mandate == w.db.cycles[c].mandate && v.db.cycles[c].state == w.db.cycles[c].state
    ensures PaymentsGrounded(v)
  {
    forall c | c in v.db.cycles
      ensures NamedOnRecord(v, c)
      ensures v.db.cycles[c].state in CYCLE_PAID ==> PaidOnRecord(v, c)
    {
      assert NamedOnRecord(w, c);
      var e :| e in w.log && e.mandate == Some(w.db.cycles[c].mandate) && e.cycleRef == Some(c);
      assert e in v.log;
      if w.db.cycles[c].state in CYCLE_PAID {
        var m := w.db.cycles[c].mandate;
        var i :| 0 <= i < |w.log| && i < ReadSoFar(w, m) && PaidBy(w.log[i], m, c);
        assert PaidBy(v.log[i], m, c);
      }
    }
  }

  lemma NoticeKeepsPaid(cfg: Config, w: World, s: Step)
    requires Enabled(w, s) && s.SendNotice? && PaymentsGrounded(w)
    ensures PaymentsGrounded(Next(cfg, w, s)) && PaidStays(w, Next(cfg, w, s))
  {
    Notice.NoticeSpendsNothing(w.db, s.held.action, s.notice);
    var v := Next(cfg, w, s);
    forall id | id in w.db.cycles
      ensures v.db.cycles[id].mandate == w.db.cycles[id].mandate && v.db.cycles[id].state == w.db.cycles[id].state
    {
      assert v.db.cycles[id].(pdnSentAt := None) == w.db.cycles[id].(pdnSentAt := None);
    }
    GroundsCarryOver(w, v);
  }

  lemma OtherLeavesCycles(cfg: Config, w: World, s: Step)
    requires !s.Project? && !s.Fire? && !s.SendNotice?
    ensures var v := Next(cfg, w, s);
            v.db.cycles == w.db.cycles && v.read == w.read && w.log <= v.log && |v.db.outbox| == |w.db.outbox|
  {
    if Enabled(w, s) {
      match s
      case Settle(id, r) => SettleGrowsOutbox(w.db, id, r);
      case SettleQuery(id, r) => QueryGrowsOutbox(w.db, id, r);
      case _ =>
    }
  }

  lemma OtherKeepsPaid(w: World, v: World)
    requires PaymentsGrounded(w)
    requires v.db.cycles == w.db.cycles && v.read == w.read && w.log <= v.log && |v.db.outbox| == |w.db.outbox|
    ensures PaymentsGrounded(v) && PaidStays(w, v)
  {
    GroundsCarryOver(w, v);
  }

  lemma StepKeepsPaid(cfg: Config, w: World, s: Step)
    requires Books(w.db) && PaymentsGrounded(w) && RefsOwned(Next(cfg, w, s).log)
    ensures PaymentsGrounded(Next(cfg, w, s)) && PaidStays(w, Next(cfg, w, s))
  {
    if Enabled(w, s) {
      match s
      case Project(_, _) => ProjectKeepsPaid(cfg, w, s);
      case Fire(_, _) => FireKeepsPaid(cfg, w, s);
      case SendNotice(_, _) => NoticeKeepsPaid(cfg, w, s);
      case _ =>
        OtherLeavesCycles(cfg, w, s);
        OtherKeepsPaid(w, Next(cfg, w, s));
    }
  }

  lemma {:induction false} PaidAlways(cfg: Config, w: World, steps: seq<Step>)
    requires Books(w.db) && PaymentsGrounded(w) && RefsOwned(Run(cfg, w, steps).log)
    ensures Books(Run(cfg, w, steps).db) && PaymentsGrounded(Run(cfg, w, steps))
    ensures PaidStays(w, Run(cfg, w, steps))
    decreases steps
  {
    if steps != [] {
      var v := Next(cfg, w, steps[0]);
      LogOnlyGrows(cfg, v, steps[1..]);
      assert RefsOwned(v.log);
      StepKeepsBooks(cfg, w, steps[0]);
      OutboxOnlyGrows(cfg, w, steps[0]);
      StepKeepsPaid(cfg, w, steps[0]);
      PaidAlways(cfg, v, steps[1..]);
      PaidStaysTransitive(cfg, w, v, steps[1..]);
    }
  }

  lemma PaidStaysTransitive(cfg: Config, w: World, v: World, steps: seq<Step>)
    requires Books(v.db) && PaidStays(w, v) && PaidStays(v, Run(cfg, v, steps))
    ensures PaidStays(w, Run(cfg, v, steps))
  {
    OutboxAlways(cfg, v, steps);
    var u := Run(cfg, v, steps);
    forall c, i | c in w.db.cycles && w.db.cycles[c].state in CYCLE_PAID && |w.db.outbox| <= i < |u.db.outbox|
      ensures u.db.outbox[i].request.cycle != c
    {
      if i < |v.db.outbox| { assert u.db.outbox[i].request == v.db.outbox[i].request; }
    }
  }

  /**
   * Late capture: in any run whose log never names one cycle under two mandates, once a projection
   * has stored a cycle as paid it stays paid, and no later transaction puts an intent for it in the
   * outbox, not even for an action claimed before.
   */
  lemma LateCaptureIsFinal(cfg: Config, before: seq<Step>, after: seq<Step>, c: CycleId)
    requires RefsOwned(Run(cfg, START, before + after).log)
    requires c in Run(cfg, START, before).db.cycles && Run(cfg, START, before).db.cycles[c].state in CYCLE_PAID
    ensures var (w, v) := (Run(cfg, START, before), Run(cfg, START, before + after));
            && c in v.db.cycles && v.db.cycles[c].state in CYCLE_PAID
            && |w.db.outbox| <= |v.db.outbox|
            && forall i :: |w.db.outbox| <= i < |v.db.outbox| ==> v.db.outbox[i].request.cycle != c
  {
    RunSplit(cfg, START, before, after);
    var w := Run(cfg, START, before);
    LogOnlyGrows(cfg, w, after);
    assert RefsOwned(w.log);
    PaidAlways(cfg, START, before);
    PaidAlways(cfg, w, after);
  }
}
