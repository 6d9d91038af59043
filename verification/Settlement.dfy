/** Rows, attempts and answers in flight against the provider's own books, in every run. */
module Settlement {
  import opened Common
  import opened Projection
  import opened Tables
  import opened Claiming
  import opened Provider
  import opened Protocol
  import opened Budget
  import Firing
  import Notice
  import Relay

  ghost predicate Known(p: ProviderState, k: Key) {
    k in p.debits || k in p.hidden
  }

  /** What a row says about the money, and what its attempt says, against the provider's books. */
  ghost predicate RowTells(p: ProviderState, row: OutboxRow, a: Attempt) {
    match row.state
    case OutboxPending => a.state == AttemptFired
    case OutboxAmbiguous => a.state == AttemptAmbiguous && Known(p, row.key)
    case OutboxSent =>
      row.key in p.debits && a.state == if p.debits[row.key].Accepted? then AttemptFired else AttemptFailed
  }

  ghost predicate RowsTell(w: World) {
    |w.db.outbox| == |w.db.attempts| &&
    forall i :: 0 <= i < |w.db.outbox| ==> RowTells(w.provider, w.db.outbox[i], w.db.attempts[i])
  }

  ghost predicate AnswerHolds(w: World, id: nat, r: Response) {
    && id < |w.db.outbox|
    && (Definitive(r) ==> w.db.outbox[id].key in w.provider.debits && w.provider.debits[w.db.outbox[id].key] == r)
    && (r.Ambiguous? ==> Known(w.provider, w.db.outbox[id].key))
  }

  ghost predicate FoundHolds(w: World, id: nat, r: Option<Response>) {
    && id < |w.db.outbox|
    && w.db.outbox[id].key in w.provider.debits && r == Some(w.provider.debits[w.db.outbox[id].key])
  }

  ghost predicate MessagesHold(w: World) {
    && (forall id, r :: (id, r) in w.answers ==> AnswerHolds(w, id, r))
    && (forall id, r :: (id, r) in w.found ==> FoundHolds(w, id, r))
    && (forall id :: id in w.querying ==> id < |w.db.outbox| && Known(w.provider, w.db.outbox[id].key))
  }

  ghost predicate Truthful(cfg: Config, w: World) {
    Books(w.db) && Honest(cfg.faults, w.provider) && MessagesHold(w) && RowsTell(w)
  }

  /** The provider's books only ever gain definitive answers. */
  ghost predicate Extends(p: ProviderState, q: ProviderState) {
    && (forall k :: k in p.debits ==> k in q.debits && q.debits[k] == p.debits[k])
    && (forall k :: Known(p, k) ==> Known(q, k))
  }

  lemma MessagesSurvive(w: World, v: World)
    requires MessagesHold(w) && Extends(w.provider, v.provider)
    requires v.answers <= w.answers && v.found <= w.found && v.querying <= w.querying
    requires |w.db.outbox| <= |v.db.outbox|
    requires forall i :: 0 <= i < |w.db.outbox| ==> v.db.outbox[i].key == w.db.outbox[i].key
    ensures MessagesHold(v)
  {
    forall id, r | (id, r) in v.answers ensures AnswerHolds(v, id, r) {
      assert AnswerHolds(w, id, r);
    }
    forall id, r | (id, r) in v.found ensures FoundHolds(v, id, r) {
      assert FoundHolds(w, id, r);
    }
  }

  lemma CallExtends(f: Faults, p: ProviderState, key: Key)
    requires Honest(f, p)
    ensures Extends(p, Provider.Submit(f, p, key).0) && Extends(p, Fetch(p, key).0)
    ensures Honest(f, Provider.Submit(f, p, key).0) && Honest(f, Fetch(p, key).0)
  {
    SubmitExtends(f, p, key);
    FetchExtends(f, p, key);
  }

  lemma SubmitExtends(f: Faults, p: ProviderState, key: Key)
    requires Honest(f, p)
    ensures Extends(p, Provider.Submit(f, p, key).0) && Honest(f, Provider.Submit(f, p, key).0)
  {}

  lemma FetchExtends(f: Faults, p: ProviderState, key: Key)
    requires Honest(f, p)
    ensures Extends(p, Fetch(p, key).0) && Honest(f, Fetch(p, key).0)
  {}

  lemma SettleKeepsTruth(cfg: Config, w: World, v: World, id: nat, row: OutboxState, attempt: AttemptState)
    requires Truthful(cfg, w) && id < |w.db.outbox|
    requires v == w.(db := Relay.SettleAs(w.db, id, row, attempt), answers := v.answers, found := v.found)
    requires v.answers <= w.answers && v.found <= w.found
    requires RowTells(w.provider, w.db.outbox[id].(state := row), w.db.attempts[id].(state := attempt))
    ensures Truthful(cfg, v)
  {
    SettleKeepsBooks(w.db, id, row, attempt);
    SettledRows(w.db, id, row, attempt);
    MessagesSurvive(w, v);
    forall i | 0 <= i < |v.db.outbox| ensures RowTells(v.provider, v.db.outbox[i], v.db.attempts[i]) {
      assert RowTells(w.provider, w.db.outbox[i], w.db.attempts[i]);
    }
  }

  lemma ProviderKeepsTruth(cfg: Config, w: World, p: ProviderState)
    requires Truthful(cfg, w) && Extends(w.provider, p) && Honest(cfg.faults, p)
    ensures Truthful(cfg, w.(provider := p))
  {
    MessagesSurvive(w, w.(provider := p));
    forall i | 0 <= i < |w.db.outbox| ensures RowTells(p, w.db.outbox[i], w.db.attempts[i]) {
      assert RowTells(w.provider, w.db.outbox[i], w.db.attempts[i]);
    }
  }

  lemma SubmitKeepsTruth(cfg: Config, w: World, id: nat)
    requires Truthful(cfg, w) && Enabled(w, Submit(id))
    ensures Truthful(cfg, Next(cfg, w, Submit(id)))
  {
    var p, r := Provider.Submit(cfg.faults, w.provider, w.db.outbox[id].key).0,
                Provider.Submit(cfg.faults, w.provider, w.db.outbox[id].key).1;
    CallExtends(cfg.faults, w.provider, w.db.outbox[id].key);
    ProviderKeepsTruth(cfg, w, p);
    SubmitTells(cfg, w, id, p, r);
    OneMoreAnswer(cfg, w.(provider := p), Next(cfg, w, Submit(id)), id, r);
  }

  lemma SubmitTells(cfg: Config, w: World, id: nat, p: ProviderState, r: Response)
    requires Enabled(w, Submit(id)) && (p, r) == Provider.Submit(cfg.faults, w.provider, w.db.outbox[id].key)
    ensures AnswerHolds(w.(provider := p), id, r)
    ensures var v := Next(cfg, w, Submit(id));
            v == w.(provider := p, relaying := v.relaying, answers := w.answers + multiset{(id, r)}, sent := v.sent)
  {}

  lemma OneMoreAnswer(cfg: Config, w: World, v: World, id: nat, r: Response)
    requires Truthful(cfg, w) && AnswerHolds(w, id, r)
    requires v == w.(relaying := v.relaying, answers := w.answers + multiset{(id, r)}, sent := v.sent)
    ensures Truthful(cfg, v)
  {
    MoreMessages(w, v);
  }

  lemma QueryKeepsTruth(cfg: Config, w: World, id: nat)
    requires Truthful(cfg, w) && Enabled(w, Query(id))
    ensures Truthful(cfg, Next(cfg, w, Query(id)))
  {
    var v := Next(cfg, w, Query(id));
    var (p, r) := Fetch(w.provider, w.db.outbox[id].key);
    CallExtends(cfg.faults, w.provider, w.db.outbox[id].key);
    ProviderKeepsTruth(cfg, w, p);
    MoreMessages(w.(provider := p), v);
  }

  /** One more message that holds leaves them all holding. */
  lemma MoreMessages(w: World, v: World)
    requires MessagesHold(w) && v.db == w.db && v.provider == w.provider && v.querying <= w.querying
    requires forall id, r :: (id, r) in v.answers && (id, r) !in w.answers ==> AnswerHolds(v, id, r)
    requires forall id, r :: (id, r) in v.found && (id, r) !in w.found ==> FoundHolds(v, id, r)
    ensures MessagesHold(v)
  {
    forall id, r | (id, r) in v.answers ensures AnswerHolds(v, id, r) {
      assert (id, r) in w.answers ==> AnswerHolds(w, id, r);
    }
    forall id, r | (id, r) in v.found ensures FoundHolds(v, id, r) {
      assert (id, r) in w.found ==> FoundHolds(w, id, r);
    }
  }

  lemma FireKeepsTruth(cfg: Config, w: World, s: Step)
    requires Truthful(cfg, w) && Enabled(w, s) && s.Fire?
    ensures Truthful(cfg, Next(cfg, w, s))
  {
    var v := Next(cfg, w, s);
    StepKeepsBooks(cfg, w, s);
    OutboxOnlyGrows(cfg, w, s);
    MessagesSurvive(w, v);
    if Firing.Fire(cfg.digest, w.db, s.held.action, s.conditions).1.Fired? {
      FiredRow(cfg, w.db, s.held.action, s.conditions);
    } else {
      Firing.RefusalSpendsNothing(cfg.digest, w.db, s.held.action, s.conditions);
    }
    forall i | 0 <= i < |v.db.outbox| ensures RowTells(v.provider, v.db.outbox[i], v.db.attempts[i]) {
      if i < |w.db.outbox| { assert RowTells(w.provider, w.db.outbox[i], w.db.attempts[i]); }
    }
  }

  lemma SettleShape(cfg: Config, w: World, id: nat, r: Response)
    requires Enabled(w, Settle(id, r))
    ensures Next(cfg, w, Settle(id, r))
         == w.(db := Relay.SettleSubmitted(w.db, id, r), answers := w.answers - multiset{(id, r)})
  {}

  /** A retriable answer counts an attempt of the row and says nothing about it. */
  lemma RetryKeepsTruth(cfg: Config, w: World, v: World, id: nat)
    requires Truthful(cfg, w) && id < |w.db.outbox| && v.answers <= w.answers
    requires v == w.(db := Relay.SettleSubmitted(w.db, id, Retriable), answers := v.answers)
    ensures Truthful(cfg, v)
  {
    SettleStepKeepsBooks(w.db, id, Retriable);
    MessagesSurvive(w, v);
    assert forall i :: 0 <= i < |v.db.outbox| ==> RowTells(w.provider, w.db.outbox[i], w.db.attempts[i]);
  }

  lemma AnswerKeepsTruth(cfg: Config, w: World, id: nat, r: Response)
    requires Truthful(cfg, w) && Enabled(w, Settle(id, r))
    ensures Truthful(cfg, Next(cfg, w, Settle(id, r)))
  {
    var v := Next(cfg, w, Settle(id, r));
    SettleShape(cfg, w, id, r);
    assert AnswerHolds(w, id, r);
    assert Twins(w.db.attempts[id], w.db.outbox[id]);
    if r.Retriable? {
      RetryKeepsTruth(cfg, w, v, id);
    } else {
      var row := if r.Ambiguous? then OutboxAmbiguous else OutboxSent;
      var attempt := if r.Ambiguous? then AttemptAmbiguous else if r.Accepted? then AttemptFired else AttemptFailed;
      SettleKeepsTruth(cfg, w, v, id, row, attempt);
    }
  }

  lemma FoundKeepsTruth(cfg: Config, w: World, s: Step)
    requires Truthful(cfg, w) && Enabled(w, s) && s.SettleQuery?
    ensures Truthful(cfg, Next(cfg, w, s))
  {
    var id, r := s.id, s.fetched;
    assert FoundHolds(w, id, r);
    SettleKeepsTruth(cfg, w, Next(cfg, w, s), id, OutboxSent,
                     if r.value.Accepted? then AttemptFired else AttemptFailed);
  }

  /** The rest leave rows, attempts, the provider and the messages alone, save for picking up a row. */
  lemma OtherKeepsTruth(cfg: Config, w: World, s: Step)
    requires Truthful(cfg, w) && Enabled(w, s)
    requires !s.Submit? && !s.Query? && !s.Fire? && !s.Settle? && !s.SettleQuery?
    ensures Truthful(cfg, Next(cfg, w, s))
  {
    var v := Next(cfg, w, s);
    StepKeepsBooks(cfg, w, s);
    OtherLeavesMoney(cfg, w, s);
    MessagesSurvive(w, v.(querying := w.querying));
    if s.PickUpAmbiguous? {
      assert RowTells(w.provider, w.db.outbox[s.id], w.db.attempts[s.id]);
    }
    forall id, r | (id, r) in v.answers ensures AnswerHolds(v, id, r) {
      assert AnswerHolds(v.(querying := w.querying), id, r);
    }
    forall id, r | (id, r) in v.found ensures FoundHolds(v, id, r) {
      assert FoundHolds(v.(querying := w.querying), id, r);
    }
    assert RowsTell(v);
  }

  lemma OtherLeavesMoney(cfg: Config, w: World, s: Step)
    requires Enabled(w, s) && !s.Submit? && !s.Query? && !s.Fire? && !s.Settle? && !s.SettleQuery?
    ensures var v := Next(cfg, w, s);
            && v.db.outbox == w.db.outbox && v.db.attempts == w.db.attempts && v.provider == w.provider
            && v.answers == w.answers && v.found == w.found
            && v.querying == if s.PickUpAmbiguous? then w.querying + multiset{s.id} else w.querying
  {
    if s.SendNotice? {
      Notice.NoticeSpendsNothing(w.db, s.held.action, s.notice);
    }
  }

  lemma StepKeepsTruth(cfg: Config, w: World, s: Step)
    requires Truthful(cfg, w)
    ensures Truthful(cfg, Next(cfg, w, s))
  {
    if Enabled(w, s) {
      match s
      case Submit(id) => SubmitKeepsTruth(cfg, w, id);
      case Query(id) => QueryKeepsTruth(cfg, w, id);
      case Fire(_, _) => FireKeepsTruth(cfg, w, s);
      case Settle(id, r) => AnswerKeepsTruth(cfg, w, id, r);
      case SettleQuery(_, _) => FoundKeepsTruth(cfg, w, s);
      case _ => OtherKeepsTruth(cfg, w, s);
    }
  }

  lemma {:induction false} TruthAlways(cfg: Config, w: World, steps: seq<Step>)
    requires Truthful(cfg, w)
    ensures Truthful(cfg, Run(cfg, w, steps))
    decreases steps
  {
    if steps != [] {
      StepKeepsTruth(cfg, w, steps[0]);
      TruthAlways(cfg, Next(cfg, w, steps[0]), steps[1..]);
    }
  }

  /**
   * In every run, whatever relays and reconcilers do to one another: a row that says sent has its
   * attempt marked fired exactly when a charge under its key has landed, and failed otherwise; and
   * what it says is the key's fate, which was fixed before the first submission.
   */
  lemma SentRowsTellTheTruth(cfg: Config, steps: seq<Step>, i: nat)
    requires i < |Run(cfg, START, steps).db.outbox|
    requires Run(cfg, START, steps).db.outbox[i].state == OutboxSent
    ensures var w := Run(cfg, START, steps);
            var key := w.db.outbox[i].key;
            && i < |w.db.attempts| && w.db.attempts[i].key == key
            && (w.db.attempts[i].state == AttemptFired <==> Landed(w.provider, key))
            && (w.db.attempts[i].state == AttemptFailed <==> !Landed(w.provider, key))
            && Fate(cfg.faults, key).Some?
            && (w.db.attempts[i].state == AttemptFired <==> Fate(cfg.faults, key).value.Accepted?)
  {
    TruthAlways(cfg, START, steps);
    var w := Run(cfg, START, steps);
    assert RowTells(w.provider, w.db.outbox[i], w.db.attempts[i]);
    assert Twins(w.db.attempts[i], w.db.outbox[i]);
  }

  // ---------------------------------------------------------------- sent is not absorbing

  lemma SettleMoves(db: Db, id: nat, r: Response, i: nat)
    requires Books(db) && id < |db.outbox| && i < |db.outbox| && db.outbox[i].state == OutboxSent
    ensures |Relay.SettleSubmitted(db, id, r).outbox| == |db.outbox|
    ensures Relay.SettleSubmitted(db, id, r).outbox[i].state != OutboxSent <==> id == i && r == Ambiguous
  {
    if !r.Retriable? {
      SettledShape(db, id, r);
      var s := Relay.SettleSubmitted(db, id, r);
      SettledRows(db, id, s.outbox[id].state, s.attempts[id].state);
    }
  }

  lemma QueryMoves(db: Db, id: nat, r: Option<Response>, i: nat)
    requires Books(db) && id < |db.outbox| && i < |db.outbox| && db.outbox[i].state == OutboxSent
    ensures |Relay.SettleFetched(db, id, r).outbox| == |db.outbox|
    ensures Relay.SettleFetched(db, id, r).outbox[i].state == OutboxSent
  {
    if r != Some(Ambiguous) {
      SettledRows(db, id, OutboxSent, if r.Some? && r.value.Accepted? then AttemptFired else AttemptFailed);
    }
  }

  lemma OthersKeepSent(cfg: Config, w: World, s: Step, i: nat)
    requires Books(w.db) && i < |w.db.outbox| && w.db.outbox[i].state == OutboxSent
    requires Enabled(w, s) && !s.Settle? && !s.SettleQuery?
    ensures i < |Next(cfg, w, s).db.outbox| && Next(cfg, w, s).db.outbox[i].state == OutboxSent
  {
    if s.Fire? {
      FireKeepsFrame(cfg, w.db, s.held.action, s.conditions);
    } else if s.SendNotice? {
      Notice.NoticeSpendsNothing(w.db, s.held.action, s.notice);
    } else {
      OthersKeepOutbox(cfg, w, s);
    }
  }

  /** A sent row leaves that state exactly when a relay settles an ambiguous answer it had received for it. */
  lemma SentIsLostExactlyWhen(cfg: Config, w: World, s: Step, i: nat)
    requires Books(w.db) && i < |w.db.outbox| && w.db.outbox[i].state == OutboxSent
    ensures i < |Next(cfg, w, s).db.outbox|
    ensures Next(cfg, w, s).db.outbox[i].state != OutboxSent <==> (i, Ambiguous) in w.answers && s == Settle(i, Ambiguous)
  {
    if Enabled(w, s) {
      if s.Settle? {
        SettleMoves(w.db, s.id, s.response, i);
      } else if s.SettleQuery? {
        QueryMoves(w.db, s.id, s.fetched, i);
      } else {
        OthersKeepSent(cfg, w, s, i);
      }
    }
  }
}
