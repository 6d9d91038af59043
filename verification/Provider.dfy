/** The rail provider behind the relay and its fault-injecting stand-in (prayas/executor/provider.py). */
module Provider {
  import opened Common
  import opened Tables

  datatype Response =
    | Accepted(providerRef: string)
    | Declined(declineCode: string)
    | Retriable
    | Ambiguous

  predicate Definitive(r: Response) { r.Accepted? || r.Declined? }

  /** Injected failure rates, and the deterministic roll that decides each key's fate. */
  datatype Faults = Faults(timeoutRate: real, declineRate: real, retriableRate: real, roll: string -> real)

  predicate ValidFaults(f: Faults) {
    && f.timeoutRate + f.declineRate + f.retriableRate <= 1.0
    && 0.0 <= f.timeoutRate <= 1.0 && 0.0 <= f.declineRate <= 1.0 && 0.0 <= f.retriableRate <= 1.0
  }

  datatype ProviderState = ProviderState(
    debits: map<Key, Response>,
    hidden: map<Key, bool>,
    submissions: seq<Key>,
    fetches: seq<Key>)

  const FRESH: ProviderState := ProviderState(map[], map[], [], [])

  function Reference(key: Key): Response {
    Accepted("pay_" + if |key| <= 12 then key else key[|key| - 12..])
  }

  function Revealed(key: Key, charged: bool): Response {
    if charged then Reference(key) else Declined("reconciled_not_charged")
  }

  predicate TimesOut(f: Faults, key: Key) { f.roll(key) < f.timeoutRate }

  predicate ChargedBehindTimeout(f: Faults, key: Key) { f.roll("truth:" + key) < 0.5 }

  predicate Unavailable(f: Faults, key: Key) {
    !TimesOut(f, key) && f.roll(key) < f.timeoutRate + f.retriableRate
  }

  function Verdict(f: Faults, key: Key): Response {
    if f.roll(key) < f.timeoutRate + f.retriableRate + f.declineRate then Declined("05") else Reference(key)
  }

  function Submit(f: Faults, p: ProviderState, key: Key): (ProviderState, Response) {
    var q := p.(submissions := p.submissions + [key]);
    if key in p.debits then (q, p.debits[key])
    else if TimesOut(f, key) then (q.(hidden := p.hidden[key := ChargedBehindTimeout(f, key)]), Ambiguous)
    else if Unavailable(f, key) then (q, Retriable)
    else (q.(debits := p.debits[key := Verdict(f, key)]), Verdict(f, key))
  }

  function Fetch(p: ProviderState, key: Key): (ProviderState, Option<Response>) {
    var q := p.(fetches := p.fetches + [key]);
    if key in p.debits then (q, Some(p.debits[key]))
    else if key in p.hidden then
      var r := Revealed(key, p.hidden[key]);
      (q.(hidden := p.hidden - {key}, debits := p.debits[key := r]), Some(r))
    else (q, None)
  }

  class FakeProvider {
    const faults: Faults
    var debitsByKey: map<Key, Response>
    var truthBehindTimeout: map<Key, bool>
    var submissions: seq<Key>
    var fetches: seq<Key>

    constructor (faults: Faults)
      requires ValidFaults(faults)
      ensures this.faults == faults && State() == FRESH
    {
      this.faults := faults;
      debitsByKey, truthBehindTimeout, submissions, fetches := map[], map[], [], [];
    }

    function State(): ProviderState
      reads this
    {
      ProviderState(debitsByKey, truthBehindTimeout, submissions, fetches)
    }

    method SubmitDebit(key: Key) returns (r: Response)
      modifies this
      ensures (State(), r) == Submit(faults, old(State()), key)
    {
      submissions := submissions + [key];
      if key in debitsByKey { return debitsByKey[key]; }
      var roll := faults.roll(key);
      if roll < faults.timeoutRate {
        truthBehindTimeout := truthBehindTimeout[key := faults.roll("truth:" + key) < 0.5];
        return Ambiguous;
      }
      if roll < faults.timeoutRate + faults.retriableRate { return Retriable; }
      if roll < faults.timeoutRate + faults.retriableRate + faults.declineRate {
        r := Declined("05");
      } else {
        r := Reference(key);
      }
      debitsByKey := debitsByKey[key := r];
    }

    method FetchByKey(key: Key) returns (r: Option<Response>)
      modifies this
      ensures (State(), r) == Fetch(old(State()), key)
    {
      fetches := fetches + [key];
      if key in debitsByKey { return Some(debitsByKey[key]); }
      if key in truthBehindTimeout {
        var charged := truthBehindTimeout[key];
        truthBehindTimeout := truthBehindTimeout - {key};
        var response := Revealed(key, charged);
        debitsByKey := debitsByKey[key := response];
        return Some(response);
      }
      return None;
    }
  }

  /** The one answer a key can ever settle on, fixed before anything is submitted. */
  function Fate(f: Faults, key: Key): Option<Response> {
    if TimesOut(f, key) then Some(Revealed(key, ChargedBehindTimeout(f, key)))
    else if Unavailable(f, key) then None
    else Some(Verdict(f, key))
  }

  /** What the provider's books look like after any calls at all. */
  ghost predicate Honest(f: Faults, p: ProviderState) {
    && (forall k :: k in p.debits ==> Definitive(p.debits[k]) && Fate(f, k) == Some(p.debits[k]))
    && (forall k :: k in p.hidden ==> TimesOut(f, k) && p.hidden[k] == ChargedBehindTimeout(f, k))
    && p.debits.Keys !! p.hidden.Keys
  }

  /** A charge exists under the key: on the books, or hidden behind a timeout. */
  ghost predicate Landed(p: ProviderState, key: Key) {
    (key in p.debits && p.debits[key].Accepted?) || (key in p.hidden && p.hidden[key])
  }

  datatype Call = SubmitCall(key: Key) | FetchCall(key: Key)

  function After(f: Faults, p: ProviderState, calls: seq<Call>): ProviderState
    decreases calls
  {
    if calls == [] then p
    else match calls[0]
      case SubmitCall(k) => After(f, Submit(f, p, k).0, calls[1..])
      case FetchCall(k) => After(f, Fetch(p, k).0, calls[1..])
  }

  lemma CallStaysHonest(f: Faults, p: ProviderState, key: Key)
    requires Honest(f, p)
    ensures Honest(f, Submit(f, p, key).0) && Honest(f, Fetch(p, key).0)
    ensures forall k :: k in p.debits ==> k in Submit(f, p, key).0.debits && Submit(f, p, key).0.debits[k] == p.debits[k]
    ensures forall k :: k in p.debits ==> k in Fetch(p, key).0.debits && Fetch(p, key).0.debits[k] == p.debits[k]
  {}

  /**
   * However calls are repeated and interleaved, a definitive answer for a key is always that key's
   * fate, a submission that times out or is unavailable says so every time until a query reveals it,
   * and a query answers "no record" only for a key nothing can have been charged under.
   */
  lemma AnswersNeverChange(f: Faults, calls: seq<Call>, key: Key)
    ensures Honest(f, After(f, FRESH, calls))
    ensures var r := Submit(f, After(f, FRESH, calls), key).1;
            && (Definitive(r) ==> Fate(f, key) == Some(r))
            && (r == Retriable <==> Fate(f, key).None?)
    ensures var r := Fetch(After(f, FRESH, calls), key).1;
            && (r.Some? ==> Fate(f, key) == r)
            && (r.None? ==> !Landed(After(f, FRESH, calls), key))
  {
    HonestAfter(f, FRESH, calls);
  }

  lemma {:induction false} HonestAfter(f: Faults, p: ProviderState, calls: seq<Call>)
    requires Honest(f, p)
    ensures Honest(f, After(f, p, calls))
    ensures forall k :: Landed(p, k) ==> Landed(After(f, p, calls), k)
    decreases calls
  {
    if calls != [] {
      CallStaysHonest(f, p, calls[0].key);
      match calls[0]
      case SubmitCall(k) => HonestAfter(f, Submit(f, p, k).0, calls[1..]);
      case FetchCall(k) => HonestAfter(f, Fetch(p, k).0, calls[1..]);
    }
  }

  /** A charge lands under a key only if its fate is acceptance, and then on the first submission. */
  lemma LandsOnce(f: Faults, calls: seq<Call>, key: Key)
    ensures Landed(After(f, FRESH, calls), key) <==>
            (Fate(f, key).Some? && Fate(f, key).value.Accepted? && SubmitCall(key) in calls)
  {
    LandedAfter(f, FRESH, calls, key);
  }

  lemma {:induction false} LandedAfter(f: Faults, p: ProviderState, calls: seq<Call>, key: Key)
    requires Honest(f, p)
    ensures Landed(After(f, p, calls), key) <==>
            (Landed(p, key) || (Fate(f, key).Some? && Fate(f, key).value.Accepted? && SubmitCall(key) in calls))
    decreases calls
  {
    if calls != [] {
      assert calls == [calls[0]] + calls[1..];
      CallStaysHonest(f, p, calls[0].key);
      match calls[0]
      case SubmitCall(k) => LandedAfter(f, Submit(f, p, k).0, calls[1..], key);
      case FetchCall(k) => LandedAfter(f, Fetch(p, k).0, calls[1..], key);
    }
  }

  // ---------------------------------------------------------------- what a key's roll decides

  /** The rates cut [0, 1) into bands, and the key's roll falls in one of them. */
  lemma FateExactly(f: Faults, key: Key)
    requires ValidFaults(f)
    ensures var x, t, u := f.roll(key), f.timeoutRate, f.timeoutRate + f.retriableRate;
            var fate, charged := Fate(f, key), f.roll("truth:" + key) < 0.5;
            && (fate.None? <==> t <= x < u)
            && (fate == Some(Declined("05")) <==> u <= x < u + f.declineRate)
            && (fate == Some(Declined("reconciled_not_charged")) <==> x < t && !charged)
            && (fate.Some? && fate.value.Accepted? <==> (x < t && charged) || u + f.declineRate <= x)
  {}

  /** A charge is referred to by the end of its key. */
  lemma ReferenceIsOfKey(f: Faults, key: Key)
    requires Fate(f, key).Some? && Fate(f, key).value.Accepted?
    ensures var ref := Fate(f, key).value.providerRef;
            && |ref| == 4 + (if |key| < 12 then |key| else 12) && ref[..4] == "pay_"
            && forall i :: 4 <= i < |ref| ==> ref[i] == key[|key| - |ref| + i]
  {}

  lemma {:induction false} OnlySubmittedKeys(f: Faults, p: ProviderState, calls: seq<Call>, key: Key)
    requires SubmitCall(key) !in calls && key !in p.debits && key !in p.hidden
    ensures key !in After(f, p, calls).debits && key !in After(f, p, calls).hidden
    decreases calls
  {
    if calls != [] {
      assert calls == [calls[0]] + calls[1..];
      match calls[0]
      case SubmitCall(k) => OnlySubmittedKeys(f, Submit(f, p, k).0, calls[1..], key);
      case FetchCall(k) => OnlySubmittedKeys(f, Fetch(p, k).0, calls[1..], key);
    }
  }

  /** Whatever else was called, a key's first submission times out exactly in the first band. */
  lemma FirstSubmission(f: Faults, calls: seq<Call>, key: Key)
    requires ValidFaults(f) && SubmitCall(key) !in calls
    ensures var r := Submit(f, After(f, FRESH, calls), key).1;
            && (r == Ambiguous <==> f.roll(key) < f.timeoutRate)
            && (Definitive(r) <==> f.timeoutRate + f.retriableRate <= f.roll(key))
    ensures Fetch(After(f, FRESH, calls), key).1.None?
  {
    OnlySubmittedKeys(f, FRESH, calls, key);
  }
}
