/**
 * Row and advisory locks of the concurrent transactions (the lock-ordering argument of
 * prayas/executor/worker.py). A fire or a notice locks its cycle, perhaps the tenant's ledger, then
 * its action; the projector locks mandates in sorted order and, under each, that mandate's cycles
 * and their actions; a claim skips locked rows and so never waits.
 */
module Locks {
  import opened Common
  import opened Projection
  import opened Tables
  import Text

  datatype Resource = MandateRow(mandate: MandateId) | CycleRow(cycle: CycleId) | Ledger | ActionRow(action: ActionId)

  /** How far a fire or notice transaction has come. */
  datatype Phase = Starting | HasCycle | HasLedger | Releasing

  datatype Kind =
    | Claimer
    | Debit(action: ActionId, cycle: Option<CycleId>, phase: Phase)
    | Projecting(current: Option<MandateId>, todo: seq<MandateId>)

  datatype Txn = Txn(kind: Kind, held: set<Resource>, want: Option<Resource>)

  type Tid = nat

  /**
   * The immutable columns of the actions: their cycle, and which carry no mandate; and which mandate's events name
   * which cycle.
   */
  datatype Layout = Layout(
    cycleOf: map<ActionId, Option<CycleId>>, bare: set<ActionId>, names: set<(MandateId, CycleId)>)

  ghost predicate ExclusiveNames(l: Layout) {
    forall m, k, c :: (m, c) in l.names && (k, c) in l.names ==> m == k
  }

  /** The transactions under way, and the cycle and mandate rows that exist. */
  datatype World = World(txns: map<Tid, Txn>, rows: set<CycleId>, known: set<MandateId>)

  const START: World := World(map[], {}, {})

  datatype Step =
    | StartClaim(t: Tid)
    | ClaimRow(t: Tid, action: ActionId)
    | StartDebit(t: Tid, action: ActionId)
    | WantCycle(t: Tid)
    | MissCycle(t: Tid)
    | WantLedger(t: Tid)
    | WantOwnAction(t: Tid)
    | StartProject(t: Tid, todo: seq<MandateId>)
    | WantMandate(t: Tid)
    | SkipMandate(t: Tid)
    | WantNamedCycle(t: Tid, cycle: CycleId)
    | WantCycleAction(t: Tid, action: ActionId)
    | Acquire(t: Tid)
    | Finish(t: Tid, inserted: set<CycleId>)
    | Register(mandate: MandateId)

  ghost predicate Free(w: World, r: Resource) {
    forall u :: u in w.txns ==> r !in w.txns[u].held
  }

  predicate Idle(w: World, t: Tid) { t in w.txns && w.txns[t].want.None? }

  ghost predicate Enabled(l: Layout, w: World, s: Step) {
    match s
    case StartClaim(t) => t !in w.txns
    case ClaimRow(t, a) => Idle(w, t) && w.txns[t].kind.Claimer? && Free(w, ActionRow(a))
    case StartDebit(t, a) => t !in w.txns && a in l.cycleOf
    case WantCycle(t) =>
      Idle(w, t) && w.txns[t].kind.Debit? && w.txns[t].kind.phase == Starting
      && w.txns[t].kind.cycle.Some? && w.txns[t].kind.cycle.value in w.rows
    case MissCycle(t) =>
      Idle(w, t) && w.txns[t].kind.Debit? && w.txns[t].kind.phase == Starting
      && (w.txns[t].kind.cycle.Some? ==> w.txns[t].kind.cycle.value !in w.rows || w.txns[t].kind.action in l.bare)
    case WantLedger(t) => Idle(w, t) && w.txns[t].kind.Debit? && w.txns[t].kind.phase == HasCycle
    case WantOwnAction(t) =>
      Idle(w, t) && w.txns[t].kind.Debit? && w.txns[t].kind.phase in {HasCycle, HasLedger}
    case StartProject(t, todo) => t !in w.txns && Text.Ascending(todo)
    case WantMandate(t) =>
      Idle(w, t) && w.txns[t].kind.Projecting? && w.txns[t].kind.todo != [] && w.txns[t].kind.todo[0] in w.known
    case SkipMandate(t) =>
      Idle(w, t) && w.txns[t].kind.Projecting? && w.txns[t].kind.todo != [] && w.txns[t].kind.todo[0] !in w.known
    case WantNamedCycle(t, c) =>
      Idle(w, t) && w.txns[t].kind.Projecting? && w.txns[t].kind.current.Some?
      && (w.txns[t].kind.current.value, c) in l.names && CycleRow(c) !in w.txns[t].held
    case WantCycleAction(t, a) =>
      Idle(w, t) && w.txns[t].kind.Projecting? && a in l.cycleOf && l.cycleOf[a].Some?
      && CycleRow(l.cycleOf[a].value) in w.txns[t].held && ActionRow(a) !in w.txns[t].held
    case Acquire(t) => t in w.txns && w.txns[t].want.Some? && Free(w, w.txns[t].want.value)
    case Finish(t, inserted) => t in w.txns
    case Register(m) => true
  }

  /** A debit that has its lock moves on; a projector that has a mandate works on it from then on. */
  function Advanced(k: Kind, r: Resource): Kind {
    match k
    case Claimer => k
    case Debit(a, c, _) =>
      if r.CycleRow? then k.(phase := HasCycle) else if r.Ledger? then k.(phase := HasLedger) else k
    case Projecting(_, todo) =>
      if r.MandateRow? && todo != [] then Projecting(Some(r.mandate), todo[1..]) else k
  }

  ghost function Next(l: Layout, w: World, s: Step): World {
    if !Enabled(l, w, s) then w
    else match s
      case StartClaim(t) => w.(txns := w.txns[t := Txn(Claimer, {}, None)])
      case ClaimRow(t, a) => w.(txns := w.txns[t := w.txns[t].(held := w.txns[t].held + {ActionRow(a)})])
      case StartDebit(t, a) => w.(txns := w.txns[t := Txn(Debit(a, l.cycleOf[a], Starting), {}, None)])
      case WantCycle(t) => w.(txns := w.txns[t := w.txns[t].(want := Some(CycleRow(w.txns[t].kind.cycle.value)))])
      case MissCycle(t) => w.(txns := w.txns[t := Release(w.txns[t])])
      case WantLedger(t) => w.(txns := w.txns[t := w.txns[t].(want := Some(Ledger))])
      case WantOwnAction(t) => w.(txns := w.txns[t := Release(w.txns[t])])
      case StartProject(t, todo) => w.(txns := w.txns[t := Txn(Projecting(None, todo), {}, None)])
      case WantMandate(t) => w.(txns := w.txns[t := w.txns[t].(want := Some(MandateRow(w.txns[t].kind.todo[0])))])
      case SkipMandate(t) => w.(txns := w.txns[t := w.txns[t].(kind := Projecting(None, w.txns[t].kind.todo[1..]))])
      case WantNamedCycle(t, c) => w.(txns := w.txns[t := w.txns[t].(want := Some(CycleRow(c)))])
      case WantCycleAction(t, a) => w.(txns := w.txns[t := w.txns[t].(want := Some(ActionRow(a)))])
      case Acquire(t) =>
        var r := w.txns[t].want.value;
        w.(txns := w.txns[t := Txn(Advanced(w.txns[t].kind, r), w.txns[t].held + {r}, None)])
      case Finish(t, inserted) => w.(txns := w.txns - {t}, rows := w.rows + inserted)
      case Register(m) => w.(known := w.known + {m})
  }

  function Release(x: Txn): Txn
    requires x.kind.Debit?
  {
    x.(kind := x.kind.(phase := Releasing), want := Some(ActionRow(x.kind.action)))
  }

  ghost function Run(l: Layout, w: World, steps: seq<Step>): World
    decreases steps
  {
    if steps == [] then w else Run(l, Next(l, w, steps[0]), steps[1..])
  }

  // ---------------------------------------------------------------- the discipline each kind keeps

  ghost predicate DebitOk(l: Layout, x: Txn)
    requires x.kind.Debit?
  {
    var k := x.kind;
    && k.action in l.cycleOf && k.cycle == l.cycleOf[k.action]
    && match k.phase
       case Starting => x.held == {} && (x.want.None? || (k.cycle.Some? && x.want.value == CycleRow(k.cycle.value)))
       case HasCycle =>
         && k.cycle.Some? && x.held == {CycleRow(k.cycle.value)} && (x.want.None? || x.want.value == Ledger)
       case HasLedger => k.cycle.Some? && x.held == {CycleRow(k.cycle.value), Ledger} && x.want.None?
       case Releasing =>
         && (x.want.None? || x.want.value == ActionRow(k.action))
         && x.held <= {Ledger, ActionRow(k.action)} + (if k.cycle.Some? then {CycleRow(k.cycle.value)} else {})
         && (x.want.Some? ==> ActionRow(k.action) !in x.held)
         && (x.held == {} || x.held == {ActionRow(k.action)} || (k.cycle.Some? && CycleRow(k.cycle.value) in x.held))
  }

  ghost predicate ProjectOk(l: Layout, x: Txn)
    requires x.kind.Projecting?
  {
    var k := x.kind;
    && Text.Ascending(k.todo)
    && Ledger !in x.held && x.want != Some(Ledger)
    && (x.want.Some? && !x.want.value.MandateRow? ==> x.want.value !in x.held)
    && (k.current.Some? ==> MandateRow(k.current.value) in x.held)
    && (forall m, n :: MandateRow(m) in x.held && n in k.todo ==> Text.Less(m, n))
    && (forall c :: CycleRow(c) in x.held ==> exists m :: MandateRow(m) in x.held && (m, c) in l.names)
    && (forall a :: ActionRow(a) in x.held ==> a in l.cycleOf && l.cycleOf[a].Some? && CycleRow(l.cycleOf[a].value) in x.held)
    && (x.want.Some? ==> match x.want.value
         case MandateRow(m) => k.todo != [] && m == k.todo[0]
         case CycleRow(c) => exists m :: MandateRow(m) in x.held && (m, c) in l.names
         case ActionRow(a) => a in l.cycleOf && l.cycleOf[a].Some? && CycleRow(l.cycleOf[a].value) in x.held
         case Ledger => false)
  }

  ghost predicate TxnOk(l: Layout, x: Txn) {
    match x.kind
    case Claimer => x.want.None? && forall r :: r in x.held ==> r.ActionRow?
    case Debit(_, _, _) => DebitOk(l, x)
    case Projecting(_, _) => ProjectOk(l, x)
  }

  ghost predicate Exclusive(w: World) {
    forall t, u, r :: t in w.txns && u in w.txns && r in w.txns[t].held && r in w.txns[u].held ==> t == u
  }

  ghost predicate Inv(l: Layout, w: World) {
    (forall t :: t in w.txns ==> TxnOk(l, w.txns[t])) && Exclusive(w)
  }

  lemma AcquireKeepsTxn(l: Layout, x: Txn, r: Resource)
    requires TxnOk(l, x) && x.want == Some(r)
    ensures TxnOk(l, Txn(Advanced(x.kind, r), x.held + {r}, None))
  {
    var y := Txn(Advanced(x.kind, r), x.held + {r}, None);
    if x.kind.Projecting? {
      AcquireKeepsProjector(l, x, r, y);
    }
  }

  lemma AcquireKeepsProjector(l: Layout, x: Txn, r: Resource, y: Txn)
    requires TxnOk(l, x) && x.kind.Projecting? && x.want == Some(r)
    requires y == Txn(Advanced(x.kind, r), x.held + {r}, None)
    ensures ProjectOk(l, y)
  {
    if r.MandateRow? {
      assert x.kind.todo == [r.mandate] + x.kind.todo[1..];
    }
    forall c | CycleRow(c) in y.held ensures exists m :: MandateRow(m) in y.held && (m, c) in l.names {
      if CycleRow(c) in x.held {
        var m :| MandateRow(m) in x.held && (m, c) in l.names;
        assert MandateRow(m) in y.held;
      } else {
        var m :| MandateRow(m) in x.held && (m, c) in l.names;
        assert MandateRow(m) in y.held;
      }
    }
  }

  lemma StepKeepsInv(l: Layout, w: World, s: Step)
    requires Inv(l, w)
    ensures Inv(l, Next(l, w, s))
  {
    if Enabled(l, w, s) {
      var v := Next(l, w, s);
      if s.Acquire? {
        AcquireKeepsTxn(l, w.txns[s.t], w.txns[s.t].want.value);
      }
      forall t | t in v.txns ensures TxnOk(l, v.txns[t]) {
        if t in w.txns { assert TxnOk(l, w.txns[t]); }
      }
    }
  }

  lemma {:induction false} InvAlways(l: Layout, w: World, steps: seq<Step>)
    requires Inv(l, w)
    ensures Inv(l, Run(l, w, steps))
    decreases steps
  {
    if steps != [] {
      StepKeepsInv(l, w, steps[0]);
      InvAlways(l, Next(l, w, steps[0]), steps[1..]);
    }
  }

  // ---------------------------------------------------------------- waiting

  /** A transaction that ends is gone, and what only it had locked is free. */
  lemma FinishFrees(l: Layout, w: World, t: Tid, inserted: set<CycleId>, r: Resource)
    requires t in w.txns && forall u :: u in w.txns && u != t ==> r !in w.txns[u].held
    ensures var v := Next(l, w, Finish(t, inserted));
            && t !in v.txns && Free(v, r) && v.rows == w.rows + inserted
            && (forall u :: u in w.txns && u != t ==> u in v.txns && v.txns[u] == w.txns[u])
  {}

  ghost predicate Waits(w: World, t: Tid, u: Tid) {
    && t in w.txns && u in w.txns && t != u
    && w.txns[t].want.Some? && w.txns[t].want.value in w.txns[u].held
  }

  function Level(x: Txn): nat {
    if x.want.None? then 5
    else if x.held == {} && x.kind.Debit? then 0
    else match x.want.value
      case MandateRow(_) => 1
      case CycleRow(_) => 2
      case Ledger => 3
      case ActionRow(_) => 4
  }

  predicate Above(x: Txn, y: Txn) {
    || Level(x) < Level(y)
    || (Level(x) == Level(y) == 1 && x.want.value.MandateRow? && y.want.value.MandateRow?
        && Text.Less(x.want.value.mandate, y.want.value.mandate))
  }

  lemma AboveIsStrict(x: Txn, y: Txn, z: Txn)
    ensures !Above(x, x)
    ensures Above(x, y) && Above(y, z) ==> Above(x, z)
  {
    if x.want.Some? && x.want.value.MandateRow? {
      Text.LessIrreflexive(x.want.value.mandate);
      if y.want.Some? && y.want.value.MandateRow? && z.want.Some? && z.want.value.MandateRow?
         && Text.Less(x.want.value.mandate, y.want.value.mandate) && Text.Less(y.want.value.mandate, z.want.value.mandate) {
        Text.LessTransitive(x.want.value.mandate, y.want.value.mandate, z.want.value.mandate);
      }
    }
  }

  /** Cycles named by one mandate only are never fought over: the mandate's lock decides first. */
  lemma ProjectorsKeepApart(l: Layout, w: World, t: Tid, u: Tid, c: CycleId)
    requires Inv(l, w) && ExclusiveNames(l) && t in w.txns && u in w.txns && t != u
    requires w.txns[t].kind.Projecting? && w.txns[t].want == Some(CycleRow(c))
    ensures w.txns[u].kind.Projecting? ==> CycleRow(c) !in w.txns[u].held
  {
    var x, y := w.txns[t], w.txns[u];
    assert TxnOk(l, x) && TxnOk(l, y);
    var m :| MandateRow(m) in x.held && (m, c) in l.names;
    if y.kind.Projecting? && CycleRow(c) in y.held {
      assert false;
    }
  }

  /** Whoever is waited for stands strictly above the one that waits. */
  lemma WaitingClimbs(l: Layout, w: World, t: Tid, u: Tid)
    requires Inv(l, w) && ExclusiveNames(l) && Waits(w, t, u)
    ensures Above(w.txns[t], w.txns[u])
  {
    var x, y := w.txns[t], w.txns[u];
    assert TxnOk(l, x) && TxnOk(l, y);
    match x.want.value {
      case MandateRow(m) =>
        if y.want.Some? && y.want.value.MandateRow? {
          assert y.want.value.mandate in y.kind.todo;
        }
      case CycleRow(c) =>
        if x.kind.Projecting? { ProjectorsKeepApart(l, w, t, u, c); }
      case Ledger =>
      case ActionRow(a) =>
        if y.kind.Projecting? && x.held != {} {
          assert CycleRow(l.cycleOf[a].value) in y.held;
        }
    }
  }

  ghost predicate Chain(w: World, path: seq<Tid>) {
    forall i :: 0 <= i < |path| - 1 ==> Waits(w, path[i], path[i + 1])
  }

  lemma {:induction false} ChainClimbs(l: Layout, w: World, path: seq<Tid>)
    requires Inv(l, w) && ExclusiveNames(l) && Chain(w, path) && |path| >= 2
    ensures path[0] in w.txns && path[|path| - 1] in w.txns
    ensures Above(w.txns[path[0]], w.txns[path[|path| - 1]])
    decreases |path|
  {
    var n := |path| - 1;
    assert Waits(w, path[n - 1], path[n]);
    WaitingClimbs(l, w, path[n - 1], path[n]);
    if n > 1 {
      var init := path[..n];
      forall i | 0 <= i < |init| - 1 ensures Waits(w, init[i], init[i + 1]) {
        assert Waits(w, path[i], path[i + 1]);
      }
      ChainClimbs(l, w, init);
      AboveIsStrict(w.txns[path[0]], w.txns[path[n - 1]], w.txns[path[n]]);
    }
  }

  /**
   * No deadlock: when no cycle is named by the events of two mandates, no reachable state has a cycle
   * in its waits-for graph, however claims, fires, notices and projections interleave or die.
   */
  lemma NoDeadlock(l: Layout, steps: seq<Step>, path: seq<Tid>)
    requires ExclusiveNames(l)
    requires |path| >= 2 && Chain(Run(l, START, steps), path)
    ensures path[0] != path[|path| - 1]
  {
    InvAlways(l, START, steps);
    var w := Run(l, START, steps);
    ChainClimbs(l, w, path);
    AboveIsStrict(w.txns[path[0]], w.txns[path[0]], w.txns[path[0]]);
  }

  lemma {:induction false} TopExists(w: World, s: set<Tid>) returns (t: Tid)
    requires s != {} && s <= w.txns.Keys
    ensures t in s && forall u :: u in s ==> !Above(w.txns[t], w.txns[u])
    decreases |s|
  {
    var x :| x in s;
    if s == {x} {
      t := x;
      AboveIsStrict(w.txns[x], w.txns[x], w.txns[x]);
    } else {
      var rest := s - {x};
      assert s == rest + {x};
      var y := TopExists(w, rest);
      t := if Above(w.txns[y], w.txns[x]) then x else y;
      forall u | u in s ensures !Above(w.txns[t], w.txns[u]) {
        AboveIsStrict(w.txns[y], w.txns[x], w.txns[u]);
        AboveIsStrict(w.txns[x], w.txns[x], w.txns[x]);
      }
    }
  }

  /** So work never stops: among the transactions under way, one is not waiting or can have its lock. */
  lemma SomeoneCanProceed(l: Layout, steps: seq<Step>) returns (t: Tid)
    requires ExclusiveNames(l) && Run(l, START, steps).txns != map[]
    ensures var w := Run(l, START, steps);
            t in w.txns && (w.txns[t].want.None? || Enabled(l, w, Acquire(t)))
  {
    InvAlways(l, START, steps);
    var w := Run(l, START, steps);
    assert w.txns.Keys != {};
    t := TopExists(w, w.txns.Keys);
    if w.txns[t].want.Some? {
      forall u | u in w.txns ensures w.txns[t].want.value !in w.txns[u].held {
        if u != t && w.txns[t].want.value in w.txns[u].held {
          WaitingClimbs(l, w, t, u);
        }
        WantsNothingHeld(l, w, t);
      }
    }
  }

  /** Nobody waits for a lock it holds already. */
  lemma WantsNothingHeld(l: Layout, w: World, t: Tid)
    requires Inv(l, w) && t in w.txns && w.txns[t].want.Some?
    ensures w.txns[t].want.value !in w.txns[t].held
  {
    var x := w.txns[t];
    assert TxnOk(l, x);
    if x.want.value.MandateRow? {
      Text.LessIrreflexive(x.want.value.mandate);
    }
  }

  /**
   * The ordering needs every cycle named by one mandate only: nothing in the projector enforces it,
   * and two projectors whose mandates share a cycle reference can each end up waiting for the other.
   */
  lemma SharedReferenceDeadlocks(l: Layout, a: MandateId, b: MandateId, c: CycleId)
    requires Text.Less(a, b) && (a, c) in l.names && (b, c) in l.names
    ensures exists steps: seq<Step> :: Waits(Run(l, START, steps), 1, 2) && Waits(Run(l, START, steps), 2, 1)
  {
    var s1 := [StartProject(1, [a, b]), WantMandate(1), Acquire(1), WantNamedCycle(1, c), Acquire(1)];
    var s2 := [StartProject(2, [b]), WantMandate(2), Acquire(2)];
    var s3 := [WantNamedCycle(2, c), WantMandate(1)];
    FirstTakes(l, a, b, c);
    SecondTakes(l, a, b, c);
    EachWaits(l, a, b, c);
    var s0 := [Register(a), Register(b)];
    BothKnown(l, a, b);
    RunSplit(l, START, s0, s1 + (s2 + s3));
    RunSplit(l, Known(a, b), s1, s2 + s3);
    RunSplit(l, Run(l, Known(a, b), s1), s2, s3);
    assert Waits(Run(l, START, s0 + (s1 + (s2 + s3))), 1, 2);
  }

  function Known(a: MandateId, b: MandateId): World { World(map[], {}, {a, b}) }

  lemma BothKnown(l: Layout, a: MandateId, b: MandateId)
    ensures Run(l, START, [Register(a), Register(b)]) == Known(a, b)
  {
    var v := World(map[], {}, {a});
    assert Next(l, START, Register(a)).known == {a};
    assert Next(l, v, Register(b)).known == {a, b};
    assert [Register(a), Register(b)][1..] == [Register(b)] && [Register(b)][1..] == [];
    assert Run(l, v, [Register(b)]) == Next(l, v, Register(b));
  }

  function First(a: MandateId, b: MandateId, c: CycleId): Txn {
    Txn(Projecting(Some(a), [b]), {MandateRow(a), CycleRow(c)}, None)
  }

  function Second(b: MandateId): Txn { Txn(Projecting(Some(b), []), {MandateRow(b)}, None) }

  lemma EachWaits(l: Layout, a: MandateId, b: MandateId, c: CycleId)
    requires Text.Less(a, b) && (a, c) in l.names && (b, c) in l.names
    ensures var w := Run(l, World(map[1 := First(a, b, c), 2 := Second(b)], {}, {a, b}), [WantNamedCycle(2, c), WantMandate(1)]);
            Waits(w, 1, 2) && Waits(w, 2, 1)
  {
    var w := World(map[1 := First(a, b, c), 2 := Second(b)], {}, {a, b});
    var v := w.(txns := w.txns[2 := Second(b).(want := Some(CycleRow(c)))]);
    assert Next(l, w, WantNamedCycle(2, c)) == v;
    assert Next(l, v, WantMandate(1)).txns == v.txns[1 := First(a, b, c).(want := Some(MandateRow(b)))];
    assert Run(l, v, [WantMandate(1)]) == Next(l, v, WantMandate(1));
    assert [WantNamedCycle(2, c), WantMandate(1)][1..] == [WantMandate(1)];
  }

  lemma SecondTakes(l: Layout, a: MandateId, b: MandateId, c: CycleId)
    requires Text.Less(a, b)
    ensures Run(l, World(map[1 := First(a, b, c)], {}, {a, b}), [StartProject(2, [b]), WantMandate(2), Acquire(2)])
         == World(map[1 := First(a, b, c), 2 := Second(b)], {}, {a, b})
  {
    Text.LessIrreflexive(a);
    var none: set<Resource> := {};
    var w := World(map[1 := First(a, b, c)], {}, {a, b});
    var s := [StartProject(2, [b]), WantMandate(2), Acquire(2)];
    var v1 := w.(txns := w.txns[2 := Txn(Projecting(None, [b]), none, None)]);
    var v2 := w.(txns := w.txns[2 := Txn(Projecting(None, [b]), none, Some(MandateRow(b)))]);
    assert Next(l, w, s[0]) == v1;
    assert Next(l, v1, s[1]) == v2;
    SecondAcquires(l, w, v2, b);
    RunThree(l, w, s);
  }

  lemma SecondAcquires(l: Layout, w: World, v: World, b: MandateId)
    requires v.txns == w.txns[2 := Txn(Projecting(None, [b]), {}, Some(MandateRow(b)))] && Free(v, MandateRow(b))
    ensures Next(l, v, Acquire(2)) == v.(txns := w.txns[2 := Second(b)])
  {
    var none: set<Resource> := {};
    assert none + {MandateRow(b)} == {MandateRow(b)};
    assert [b][1..] == [];
  }

  lemma {:induction false} RunSplit(l: Layout, w: World, s: seq<Step>, t: seq<Step>)
    ensures Run(l, w, s + t) == Run(l, Run(l, w, s), t)
    decreases s
  {
    if s == [] {
      assert s + t == t;
    } else {
      assert (s + t)[1..] == s[1..] + t;
      RunSplit(l, Next(l, w, s[0]), s[1..], t);
    }
  }

  lemma RunThree(l: Layout, w: World, s: seq<Step>)
    requires |s| == 3
    ensures Run(l, w, s) == Next(l, Next(l, Next(l, w, s[0]), s[1]), s[2])
  {
    var v := Next(l, w, s[0]);
    assert s[1..][0] == s[1] && s[1..][1..] == [s[2]];
    assert Run(l, Next(l, v, s[1]), [s[2]]) == Next(l, Next(l, v, s[1]), s[2]);
  }

  lemma FirstTakes(l: Layout, a: MandateId, b: MandateId, c: CycleId)
    requires Text.Less(a, b) && (a, c) in l.names
    ensures Run(l, Known(a, b), [StartProject(1, [a, b]), WantMandate(1), Acquire(1), WantNamedCycle(1, c), Acquire(1)])
         == World(map[1 := First(a, b, c)], {}, {a, b})
  {
    var none: set<Resource> := {};
    var x := Txn(Projecting(None, [a, b]), none, None);
    var y := Txn(Projecting(Some(a), [b]), {MandateRow(a)}, None);
    var z := First(a, b, c);
    var s := [StartProject(1, [a, b]), WantMandate(1), Acquire(1)];
    var t := [WantNamedCycle(1, c), Acquire(1)];
    assert Next(l, Known(a, b), s[0]) == World(map[1 := x], {}, {a, b});
    assert Next(l, World(map[1 := x], {}, {a, b}), s[1]) == World(map[1 := x.(want := Some(MandateRow(a)))], {}, {a, b});
    assert none + {MandateRow(a)} == {MandateRow(a)};
    assert [a, b][1..] == [b];
    assert Next(l, World(map[1 := x.(want := Some(MandateRow(a)))], {}, {a, b}), s[2]) == World(map[1 := y], {}, {a, b});
    RunThree(l, Known(a, b), s);
    assert Next(l, World(map[1 := y], {}, {a, b}), t[0]) == World(map[1 := y.(want := Some(CycleRow(c)))], {}, {a, b});
    assert {MandateRow(a)} + {CycleRow(c)} == {MandateRow(a), CycleRow(c)};
    assert Next(l, World(map[1 := y.(want := Some(CycleRow(c)))], {}, {a, b}), t[1]) == World(map[1 := z], {}, {a, b});
    assert t[1..] == [t[1]];
    assert Run(l, World(map[1 := y.(want := Some(CycleRow(c)))], {}, {a, b}), [t[1]]) == World(map[1 := z], {}, {a, b});
    assert Run(l, World(map[1 := y], {}, {a, b}), t) == World(map[1 := z], {}, {a, b});
    RunSplit(l, Known(a, b), s, t);
    assert s + t == [StartProject(1, [a, b]), WantMandate(1), Acquire(1), WantNamedCycle(1, c), Acquire(1)];
  }

  // ---------------------------------------------------------------- who is locked

  /** Only mandates that are registered are locked, or waited for. */
  ghost predicate LocksRegistered(w: World) {
    forall t, m :: t in w.txns && (MandateRow(m) in w.txns[t].held || w.txns[t].want == Some(MandateRow(m))) ==> m in w.known
  }

  lemma StepLocksRegistered(l: Layout, w: World, s: Step)
    requires LocksRegistered(w)
    ensures LocksRegistered(Next(l, w, s))
  {}

  lemma {:induction false} RegisteredAlways(l: Layout, w: World, steps: seq<Step>)
    requires LocksRegistered(w)
    ensures LocksRegistered(Run(l, w, steps))
    decreases steps
  {
    if steps != [] {
      StepLocksRegistered(l, w, steps[0]);
      RegisteredAlways(l, Next(l, w, steps[0]), steps[1..]);
    }
  }
}
