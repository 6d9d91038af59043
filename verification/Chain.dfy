/** The columns of a ledger record that take part in its hash (prayas/ledger/chain.py). */
module Columns {

  datatype Field =
    | DecisionId | TenantId | ChainSeq | PrevHash | Ts | TriggerEventId | MandateRef | CycleRef | ActionType
    | VerdictField | FeatureSnapshotRef | ModelVersions | CausePosterior | LiquidityCurveRef | RevocationHazard
    | ContinuationValue | CandidateActions | ChosenAction | Rationale | ComplianceChecks | HoldoutArm
    | Propensity | Degraded | OutcomeField | OutcomeTs | RecoveredPaise

  const HASHED_FIELDS: seq<Field> :=
    [DecisionId, TenantId, ChainSeq, PrevHash, Ts, TriggerEventId, MandateRef, CycleRef, ActionType,
     VerdictField, FeatureSnapshotRef, ModelVersions, CausePosterior, LiquidityCurveRef, RevocationHazard,
     ContinuationValue, CandidateActions, ChosenAction, Rationale, ComplianceChecks, HoldoutArm,
     Propensity, Degraded, OutcomeField, OutcomeTs, RecoveredPaise]

  /** How the schema declares each column. */
  datatype ColumnType = Text | BigInt | Boolean | Timestamp | Jsonb | Numeric5

  function TypeOf(f: Field): ColumnType {
    match f
    case ModelVersions | CausePosterior | CandidateActions | ChosenAction | ComplianceChecks => Jsonb
    case RevocationHazard | Propensity => Numeric5
    case ChainSeq | ContinuationValue | RecoveredPaise => BigInt
    case Ts | OutcomeTs => Timestamp
    case Degraded => Boolean
    case _ => Text
  }

  /** The source's own list of the columns it parses. */
  predicate IsJson(f: Field) { TypeOf(f) == Jsonb }

  function Name(f: Field): string {
    match f
    case DecisionId => "decision_id"
    case TenantId => "tenant_id"
    case ChainSeq => "chain_seq"
    case PrevHash => "prev_hash"
    case Ts => "ts"
    case TriggerEventId => "trigger_event_id"
    case MandateRef => "mandate_id"
    case CycleRef => "cycle_id"
    case ActionType => "action_type"
    case VerdictField => "verdict"
    case FeatureSnapshotRef => "feature_snapshot_ref"
    case ModelVersions => "model_versions"
    case CausePosterior => "cause_posterior"
    case LiquidityCurveRef => "liquidity_curve_ref"
    case RevocationHazard => "revocation_hazard"
    case ContinuationValue => "continuation_value"
    case CandidateActions => "candidate_actions"
    case ChosenAction => "chosen_action"
    case Rationale => "rationale"
    case ComplianceChecks => "compliance_checks"
    case HoldoutArm => "holdout_arm"
    case Propensity => "propensity"
    case Degraded => "degraded"
    case OutcomeField => "outcome"
    case OutcomeTs => "outcome_ts"
    case RecoveredPaise => "recovered_paise"
  }

  /** Length and first two letters already tell the names apart. */
  function Fingerprint(s: string): int {
    if |s| < 2 then 0 else |s| * 1000000 + s[0] as int * 1000 + s[1] as int
  }

  function Print(f: Field): int {
    match f
    case DecisionId => 11100101
    case TenantId => 9116101
    case ChainSeq => 9099104
    case PrevHash => 9112114
    case Ts => 2116115
    case TriggerEventId => 16116114
    case MandateRef => 10109097
    case CycleRef => 8099121
    case ActionType => 11097099
    case VerdictField => 7118101
    case FeatureSnapshotRef => 20102101
    case ModelVersions => 14109111
    case CausePosterior => 15099097
    case LiquidityCurveRef => 19108105
    case RevocationHazard => 17114101
    case ContinuationValue => 18099111
    case CandidateActions => 17099097
    case ChosenAction => 13099104
    case Rationale => 9114097
    case ComplianceChecks => 17099111
    case HoldoutArm => 11104111
    case Propensity => 10112114
    case Degraded => 8100101
    case OutcomeField => 7111117
    case OutcomeTs => 10111117
    case RecoveredPaise => 15114101
  }

  lemma NameFingerprint(f: Field)
    ensures Fingerprint(Name(f)) == Print(f)
  {}

  lemma NamesDistinct(f: Field, g: Field)
    requires Name(f) == Name(g)
    ensures f == g
  {
    NameFingerprint(f);
    NameFingerprint(g);
  }

  /** The columns the schema declares as other than text. */
  lemma DeclaredAs(f: Field)
    ensures IsJson(f) <==> f in {ModelVersions, CausePosterior, CandidateActions, ChosenAction, ComplianceChecks}
    ensures TypeOf(f) == Numeric5 <==> f in {RevocationHazard, Propensity}
    ensures TypeOf(f) == BigInt <==> f in {ChainSeq, ContinuationValue, RecoveredPaise}
    ensures TypeOf(f) == Timestamp <==> f in {Ts, OutcomeTs}
    ensures TypeOf(f) == Boolean <==> f in {Degraded}
  {}

  function Position(f: Field): nat {
    match f
    case DecisionId => 0 case TenantId => 1 case ChainSeq => 2 case PrevHash => 3 case Ts => 4
    case TriggerEventId => 5 case MandateRef => 6 case CycleRef => 7 case ActionType => 8 case VerdictField => 9
    case FeatureSnapshotRef => 10 case ModelVersions => 11 case CausePosterior => 12 case LiquidityCurveRef => 13
    case RevocationHazard => 14 case ContinuationValue => 15 case CandidateActions => 16 case ChosenAction => 17
    case Rationale => 18 case ComplianceChecks => 19 case HoldoutArm => 20 case Propensity => 21
    case Degraded => 22 case OutcomeField => 23 case OutcomeTs => 24 case RecoveredPaise => 25
  }

  /** Every column is listed, and once. */
  lemma ListedOnce(f: Field)
    ensures f in HASHED_FIELDS
    ensures forall i :: 0 <= i < |HASHED_FIELDS| && HASHED_FIELDS[i] == f ==> i == Position(f)
  {
    assert HASHED_FIELDS[Position(f)] == f;
    assert forall i :: 0 <= i < |HASHED_FIELDS| ==> Position(HASHED_FIELDS[i]) == i;
  }
}

/**
 * What a JSONB column makes of a value: members in its own order, and numbers as numbers, so that none has a positive
 * exponent and zero has no sign.
 */
module Jsonb {
  import C = Canonical
  import Text
  import Utf8

  /** A float printed with a positive exponent is whole, and JSONB spells it out as an integer. */
  predicate SpelledOut(r: string) {
    exists i :: 0 <= i < |r| - 1 && r[i] == 'e' && r[i + 1] == '+'
  }

  /** What `json.dumps` writes for the float that is zero with a sign. */
  const NEGATIVE_ZERO: string := "-0.0"

  /** Shorter keys first, then by bytes. */
  predicate Precedes(a: string, b: string) {
    |Utf8.Encode(a)| < |Utf8.Encode(b)| || (|Utf8.Encode(a)| == |Utf8.Encode(b)| && Text.Less(a, b))
  }

  function Insert(key: string, value: C.Json, ms: C.Members): C.Members {
    if ms.End? || Precedes(key, ms.key) then C.Member(key, value, ms)
    else C.Member(ms.key, ms.value, Insert(key, value, ms.rest))
  }

  function Back(whole: string -> int, v: C.Json): C.Json {
    match v
    case Float(r) => if SpelledOut(r) then C.Int(whole(r)) else if r == NEGATIVE_ZERO then C.Float("0.0") else v
    case Array(items) => C.Array(BackItems(whole, items))
    case Object(ms) => C.Object(BackMembers(whole, ms))
    case _ => v
  }

  function BackItems(whole: string -> int, items: C.Items): C.Items {
    if items.Nil? then C.Nil else C.Item(Back(whole, items.head), BackItems(whole, items.tail))
  }

  function BackMembers(whole: string -> int, ms: C.Members): C.Members {
    if ms.End? then C.End else Insert(ms.key, Back(whole, ms.value), BackMembers(whole, ms.rest))
  }

  /** `1e+16` is spelled out and `1e-05` is not. */
  lemma SpelledOutIs(mantissa: string, exponent: string)
    ensures SpelledOut(mantissa + "e+" + exponent)
    ensures '+' !in mantissa ==> !SpelledOut(mantissa)
  {
    var r := mantissa + "e+" + exponent;
    assert r[|mantissa|] == 'e' && r[|mantissa| + 1] == '+';
  }

  ghost predicate ShortestFirst(ms: C.Members) {
    ms.Member? ==> ShortestFirst(ms.rest) && (ms.rest.Member? ==> |Utf8.Encode(ms.key)| <= |Utf8.Encode(ms.rest.key)|)
  }

  lemma {:induction false} InsertShortestFirst(key: string, value: C.Json, ms: C.Members)
    requires ShortestFirst(ms)
    ensures ShortestFirst(Insert(key, value, ms))
  {
    if ms.Member? && !Precedes(key, ms.key) { InsertShortestFirst(key, value, ms.rest); }
  }

  /** The members of an object come back with their keys in order of length. */
  lemma {:induction false} BackShortestFirst(whole: string -> int, ms: C.Members)
    ensures ShortestFirst(BackMembers(whole, ms))
  {
    if ms.Member? {
      BackShortestFirst(whole, ms.rest);
      InsertShortestFirst(ms.key, Back(whole, ms.value), BackMembers(whole, ms.rest));
    }
  }

  /** No number anywhere in the value is one that JSONB spells out or takes the sign from. */
  predicate Settled(v: C.Json) {
    match v
    case Float(r) => !SpelledOut(r) && r != NEGATIVE_ZERO
    case Array(items) => SettledItems(items)
    case Object(ms) => SettledMembers(ms)
    case _ => true
  }

  predicate SettledItems(items: C.Items) {
    items.Nil? || (Settled(items.head) && SettledItems(items.tail))
  }

  predicate SettledMembers(ms: C.Members) {
    ms.End? || (Settled(ms.value) && SettledMembers(ms.rest))
  }

  lemma {:induction false} InsertFacts(key: string, value: C.Json, ms: C.Members)
    requires C.ValidMembers(ms) && key !in C.Keys(ms) && C.Valid(value)
    ensures var r := Insert(key, value, ms);
            C.ValidMembers(r) && C.Keys(r) == C.Keys(ms) + {key}
            && (forall k :: k in C.Keys(r) ==> C.Get(r, k) == if k == key then value else C.Get(ms, k))
  {
    if ms.Member? && !Precedes(key, ms.key) { InsertFacts(key, value, ms.rest); }
  }

  lemma {:induction false} MembersFacts(whole: string -> int, ms: C.Members)
    requires C.ValidMembers(ms)
    ensures var r := BackMembers(whole, ms);
            C.ValidMembers(r) && C.Keys(r) == C.Keys(ms)
            && (forall k :: k in C.Keys(ms) ==> C.Valid(C.Get(ms, k)) && C.Get(r, k) == Back(whole, C.Get(ms, k)))
    decreases ms, 0
  {
    if ms.Member? {
      MembersFacts(whole, ms.rest);
      BackValid(whole, ms.value);
      InsertFacts(ms.key, Back(whole, ms.value), BackMembers(whole, ms.rest));
    }
  }

  lemma {:induction false} BackValid(whole: string -> int, v: C.Json)
    requires C.Valid(v)
    ensures C.Valid(Back(whole, v))
    decreases v, 1
  {
    match v {
      case Array(items) => ItemsValid(whole, items);
      case Object(ms) => MembersFacts(whole, ms);
      case Float(r) => UnsignedZero();
      case _ =>
    }
  }

  lemma UnsignedZero()
    ensures C.Valid(C.Float("0.0")) && C.Valid(C.Float(NEGATIVE_ZERO))
  {
    assert "0.0"[1] == '.' && NEGATIVE_ZERO[2] == '.';
  }

  lemma SignLost(whole: string -> int, name: string)
    ensures var v := C.Object(C.Member(name, C.Float(NEGATIVE_ZERO), C.End));
            !Settled(v) && Back(whole, v) == C.Object(C.Member(name, C.Float("0.0"), C.End))
  {
    var zero := C.Float(NEGATIVE_ZERO);
    assert !SpelledOut(NEGATIVE_ZERO);
    assert Back(whole, zero) == C.Float("0.0") && !Settled(zero);
    assert BackMembers(whole, C.End) == C.End;
    var ms := C.Member(name, zero, C.End);
    assert BackMembers(whole, ms) == Insert(name, Back(whole, zero), C.End);
    assert !SettledMembers(ms);
  }

  lemma {:induction false} ItemsValid(whole: string -> int, items: C.Items)
    requires C.ValidItems(items)
    ensures C.ValidItems(BackItems(whole, items))
    decreases items, 0
  {
    if items.Item? {
      BackValid(whole, items.head);
      ItemsValid(whole, items.tail);
    }
  }

  predicate EachSettled(ms: C.Members) {
    forall k :: k in C.Keys(ms) ==> Settled(C.Get(ms, k))
  }

  lemma {:induction false} SettledGet(ms: C.Members)
    requires C.ValidMembers(ms)
    ensures SettledMembers(ms) <==> EachSettled(ms)
  {
    if ms.Member? {
      SettledGet(ms.rest);
      assert ms.key in C.Keys(ms) && C.Get(ms, ms.key) == ms.value;
      if EachSettled(ms) {
        forall k | k in C.Keys(ms.rest) ensures Settled(C.Get(ms.rest, k)) {
          assert k in C.Keys(ms) && C.Get(ms, k) == C.Get(ms.rest, k);
        }
      }
    }
  }

  /** A value comes back meaning the same exactly when JSONB writes each of its numbers as it was written. */
  lemma {:induction false} BackExactly(whole: string -> int, v: C.Json)
    requires C.Valid(v)
    ensures C.Normal(Back(whole, v)) == C.Normal(v) <==> Settled(v)
    decreases v, 1
  {
    match v {
      case Array(items) => ItemsExactly(whole, items);
      case Object(ms) => ObjectExactly(whole, ms);
      case _ =>
    }
  }

  lemma {:induction false} ItemsExactly(whole: string -> int, items: C.Items)
    requires C.ValidItems(items)
    ensures C.NormalItems(BackItems(whole, items)) == C.NormalItems(items) <==> SettledItems(items)
    decreases items, 0
  {
    if items.Item? {
      BackExactly(whole, items.head);
      ItemsExactly(whole, items.tail);
    }
  }

  lemma {:induction false} ObjectExactly(whole: string -> int, ms: C.Members)
    requires C.ValidMembers(ms)
    ensures C.Normal(C.Object(BackMembers(whole, ms))) == C.Normal(C.Object(ms)) <==> SettledMembers(ms)
    decreases ms, 1
  {
    MembersFacts(whole, ms);
    C.ObjectsSort(BackMembers(whole, ms), ms);
    SettledGet(ms);
    EachExactly(whole, ms);
  }

  lemma {:induction false} EachExactly(whole: string -> int, ms: C.Members)
    requires C.ValidMembers(ms)
    ensures forall k :: k in C.Keys(ms) ==>
              (C.Normal(Back(whole, C.Get(ms, k))) == C.Normal(C.Get(ms, k)) <==> Settled(C.Get(ms, k)))
    decreases ms, 0
  {
    if ms.Member? {
      BackExactly(whole, ms.value);
      EachExactly(whole, ms.rest);
      assert forall k :: k in C.Keys(ms.rest) ==> C.Get(ms, k) == C.Get(ms.rest, k);
    }
  }
}

/**
 * The hash-chained ledger (prayas/ledger/chain.py): one chain per tenant in a shared table. SHA-256, JSON
 * parsing, the float of a NUMERIC column and what a column reads back as are parameters.
 */
module Chain {
  import opened Common
  import opened Columns
  import C = Canonical
  import Decimal
  import Jsonb

  /**
   * A value as a caller or the driver supplies it: plain, a Decimal, an instant with its UTC offset in minutes, or a
   * wall-clock time without one.
   */
  datatype Cell = Plain(json: C.Json) | Exact(number: real) | Instant(micros: int, offset: int) | Naive(clock: int)

  /**
   * What the language and the database compute: JSON parsing, the text of the nearest float, the number a text
   * stands for, the integer of an exponent form, the integer made of another number, wall-clock text, the instant
   * of a wall-clock time, the hash, and whatever else a table may refuse a row for.
   */
  datatype Codec = Codec(
    loads: string -> Option<C.Json>,
    floatOf: real -> string,
    valueOf: string -> Option<real>,
    whole: string -> int,
    integer: Cell -> int,
    wall: int -> string,
    local: int -> int,
    sha: seq<int> -> string,
    refuses: (seq<Row>, Row) -> bool)

  ghost predicate ParsesValues(loads: string -> Option<C.Json>) {
    forall s :: loads(s).Some? ==> C.Valid(loads(s).value)
  }

  ghost predicate PrintsFloats(floatOf: real -> string) {
    forall x :: C.FloatText(floatOf(x))
  }

  /** `str` of a datetime without its offset, with or without microseconds. */
  ghost predicate PrintsClocks(wall: int -> string) {
    forall m :: |wall(m)| == 19 || |wall(m)| == 26
  }

  /** What parsing and float printing yield are JSON values, and a clock's text is as long as a clock's text is. */
  ghost predicate Sound(k: Codec) { ParsesValues(k.loads) && PrintsFloats(k.floatOf) && PrintsClocks(k.wall) }

  datatype Row = Row(tenant: string, no: int, prev: string, cells: map<Field, Cell>, hash: string)

  function Zeros(n: nat): string { if n == 0 then "" else "0" + Zeros(n - 1) }

  function Genesis(): string { Zeros(64) }

  function Column(r: Row, f: Field): Cell {
    match f
    case TenantId => Plain(C.Str(r.tenant))
    case ChainSeq => Plain(C.Int(r.no))
    case PrevHash => Plain(C.Str(r.prev))
    case _ => if f in r.cells then r.cells[f] else Plain(C.Null)
  }

  function Normalise(k: Codec, f: Field, c: Cell): C.Json {
    match c
    case Plain(v) => if IsJson(f) && v.Str? && k.loads(v.s).Some? then k.loads(v.s).value else v
    case Exact(x) => C.Float(k.floatOf(x))
    case Instant(m, o) => C.Str(InstantText(k, m, o))
    case Naive(m) => C.Str(k.wall(m))
  }

  function TwoDigits(n: nat): string
    requires n < 100
  {
    [Decimal.DIGITS[n / 10], Decimal.DIGITS[n % 10]]
  }

  function Magnitude(n: int): nat { if n < 0 then -n else n }

  /** `+05:30` */
  function OffsetText(offset: int): string {
    var a := Magnitude(offset);
    (if offset < 0 then "-" else "+") + TwoDigits(a / 60 % 24) + ":" + TwoDigits(a % 60)
  }

  /** `str` of an aware datetime: the local wall clock, then the offset. */
  function InstantText(k: Codec, micros: int, offset: int): string {
    k.wall(micros + offset * 60000000) + OffsetText(offset)
  }

  lemma {:induction false} ZerosAre(n: nat)
    ensures |Zeros(n)| == n && forall i :: 0 <= i < n ==> Zeros(n)[i] == '0'
  {
    if n > 0 { ZerosAre(n - 1); }
  }

  /** The link of a chain's first record: sixty-four zeros. */
  lemma GenesisIs()
    ensures |Genesis()| == 64 && forall i :: 0 <= i < 64 ==> Genesis()[i] == '0'
  {
    ZerosAre(64);
  }

  function DigitAt(s: string, i: nat): int
    requires i < |s|
  {
    s[i] as int - '0' as int
  }

  /** The offset an instant's last six characters tell, in minutes. */
  function OffsetOf(s: string): int
    requires |s| == 6
  {
    (if s[0] == '-' then -1 else 1) * ((DigitAt(s, 1) * 10 + DigitAt(s, 2)) * 60 + DigitAt(s, 4) * 10 + DigitAt(s, 5))
  }

  lemma TwoDigitsRead(n: nat)
    requires n < 100
    ensures |TwoDigits(n)| == 2 && DigitAt(TwoDigits(n), 0) * 10 + DigitAt(TwoDigits(n), 1) == n
  {}

  /** An offset of less than a day is written `+hh:mm` or `-hh:mm` and read back as itself; UTC has a plus. */
  lemma OffsetReads(o: int)
    requires -1440 < o < 1440
    ensures var s := OffsetText(o);
            |s| == 6 && s[0] == (if o < 0 then '-' else '+') && s[3] == ':' && OffsetOf(s) == o
  {
    var a, s := Magnitude(o), OffsetText(o);
    var h, m := TwoDigits(a / 60 % 24), TwoDigits(a % 60);
    TwoDigitsRead(a / 60 % 24);
    TwoDigitsRead(a % 60);
    assert s[1] == h[0] && s[2] == h[1] && s[4] == m[0] && s[5] == m[1];
    assert a / 60 % 24 * 60 + a % 60 == a;
  }

  /** An instant's text: the clock of a place that many minutes ahead of UTC, and then how many. */
  lemma InstantReads(k: Codec, micros: int, o: int)
    requires -1440 < o < 1440
    ensures var s := InstantText(k, micros, o);
            |s| >= 6 && OffsetOf(s[|s| - 6..]) == o && s[..|s| - 6] == k.wall(micros + OffsetOf(s[|s| - 6..]) * 60000000)
  {
    OffsetReads(o);
    var w, s := k.wall(micros + o * 60000000), InstantText(k, micros, o);
    assert s == w + OffsetText(o);
    assert s[|s| - 6..] == OffsetText(o) && s[..|s| - 6] == w;
  }

  function At(k: Codec, r: Row, f: Field): C.Json { Normalise(k, f, Column(r, f)) }

  function Body(k: Codec, r: Row, fields: seq<Field>): C.Members {
    if fields == [] then C.End else C.Member(Name(fields[0]), At(k, r, fields[0]), Body(k, r, fields[1..]))
  }

  function Bytes(k: Codec, r: Row): seq<int> { C.Canonical(C.Object(Body(k, r, HASHED_FIELDS))) }

  function Hasher(k: Codec): Row -> string { r => k.sha(Bytes(k, r)) }

  predicate ValidRow(r: Row) {
    forall f :: f in r.cells && r.cells[f].Plain? ==> C.Valid(r.cells[f].json)
  }

  // ---------------------------------------------------------------- equal bytes, equal fields

  /** The two rows say the same in every hashed column. */
  ghost predicate Agree(k: Codec, a: Row, b: Row) {
    forall f :: C.Same(At(k, a, f), At(k, b, f))
  }

  lemma FieldValid(k: Codec, r: Row, f: Field)
    requires Sound(k) && ValidRow(r)
    ensures C.Valid(At(k, r, f))
  {}

  predicate Distinct(fields: seq<Field>) {
    forall i, j :: 0 <= i < j < |fields| ==> fields[i] != fields[j]
  }

  lemma {:induction false} BodyKeys(k: Codec, r: Row, fields: seq<Field>, n: string)
    ensures n in C.Keys(Body(k, r, fields)) <==> exists f :: f in fields && Name(f) == n
  {
    if fields != [] { BodyKeys(k, r, fields[1..], n); }
  }

  lemma {:induction false} BodyGet(k: Codec, r: Row, fields: seq<Field>, f: Field)
    requires f in fields
    ensures Name(f) in C.Keys(Body(k, r, fields)) && C.Get(Body(k, r, fields), Name(f)) == At(k, r, f)
  {
    BodyKeys(k, r, fields, Name(f));
    if fields[0] != f {
      if Name(fields[0]) == Name(f) { NamesDistinct(fields[0], f); }
      BodyGet(k, r, fields[1..], f);
    }
  }

  lemma {:induction false} BodyValid(k: Codec, r: Row, fields: seq<Field>)
    requires Sound(k) && ValidRow(r) && Distinct(fields)
    ensures C.ValidMembers(Body(k, r, fields))
  {
    if fields != [] {
      FieldValid(k, r, fields[0]);
      BodyKeys(k, r, fields[1..], Name(fields[0]));
      if f :| f in fields[1..] && Name(f) == Name(fields[0]) { NamesDistinct(f, fields[0]); }
      BodyValid(k, r, fields[1..]);
    }
  }

  lemma {:induction false} BodiesAgree(k: Codec, a: Row, b: Row, fields: seq<Field>, all: seq<Field>)
    requires forall f :: f in fields ==> f in all
    ensures C.Agrees(Body(k, a, fields), Body(k, b, all))
       <==> forall f :: f in fields ==> C.Same(At(k, a, f), At(k, b, f))
    decreases |fields|
  {
    if fields != [] {
      BodyGet(k, b, all, fields[0]);
      BodiesAgree(k, a, b, fields[1..], all);
      assert fields == [fields[0]] + fields[1..];
    }
  }

  lemma BodiesSame(k: Codec, a: Row, b: Row, fields: seq<Field>)
    requires Sound(k) && ValidRow(a) && ValidRow(b) && Distinct(fields)
    ensures C.Canonical(C.Object(Body(k, a, fields))) == C.Canonical(C.Object(Body(k, b, fields)))
       <==> forall f :: f in fields ==> C.Same(At(k, a, f), At(k, b, f))
  {
    var x, y := Body(k, a, fields), Body(k, b, fields);
    BodyValid(k, a, fields);
    BodyValid(k, b, fields);
    BodiesAgree(k, a, b, fields, fields);
    forall n ensures n in C.Keys(x) <==> n in C.Keys(y) {
      BodyKeys(k, a, fields, n);
      BodyKeys(k, b, fields, n);
    }
    C.CanonicalExactly(C.Object(x), C.Object(y));
  }

  lemma BytesExactly(k: Codec, a: Row, b: Row)
    requires Sound(k) && ValidRow(a) && ValidRow(b)
    ensures Bytes(k, a) == Bytes(k, b) <==> Agree(k, a, b)
  {
    AllDistinct();
    BodiesSame(k, a, b, HASHED_FIELDS);
    forall f ensures f in HASHED_FIELDS { ListedOnce(f); }
  }

  /** A wall clock without an offset is hashed as its own text. */
  lemma ClockAsGiven(k: Codec, f: Field, clock: int)
    ensures Normalise(k, f, Naive(clock)) == C.Str(k.wall(clock))
  {}

  /** Only the JSON columns are parsed: what any other column is given is what is hashed. */
  lemma OnlyJsonIsParsed(k: Codec, f: Field, v: C.Json)
    ensures Normalise(k, f, Plain(v)) == v || (IsJson(f) && v.Str? && k.loads(v.s) == Some(Normalise(k, f, Plain(v))))
  {}

  lemma AllDistinct()
    ensures Distinct(HASHED_FIELDS)
  {
    forall i, j | 0 <= i < j < |HASHED_FIELDS| ensures HASHED_FIELDS[i] != HASHED_FIELDS[j] {
      ListedOnce(HASHED_FIELDS[i]);
    }
  }

  /** A string that is itself the JSON text of something else. */
  predicate ReadsAgain(k: Codec, v: C.Json) {
    v.Str? && k.loads(v.s).Some? && !C.Same(v, k.loads(v.s).value)
  }

  /**
   * A JSON column hashes the same as text and decoded, except when the decoded value is itself a string
   * that reads as JSON for something else: that one is parsed a second time.
   */
  lemma TextOrDecoded(k: Codec, f: Field, text: string)
    requires Sound(k) && IsJson(f) && k.loads(text).Some?
    ensures C.Same(Normalise(k, f, Plain(C.Str(text))), Normalise(k, f, Plain(k.loads(text).value)))
       <==> !ReadsAgain(k, k.loads(text).value)
  {
    var v := k.loads(text).value;
    C.NormalExactly(v, v);
  }

  // ---------------------------------------------------------------- verify_chain

  datatype Reason = SequenceGap | BrokenLink | HashMismatch

  datatype Break = Break(tenant: string, no: int, decision: Cell, reason: Reason, expected: string, found: string)

  function Found(h: Row -> string, r: Row, seqNo: int, prev: string): seq<Break> {
    var id := Column(r, DecisionId);
    (if r.no != seqNo then [Break(r.tenant, r.no, id, SequenceGap, Decimal.Int(seqNo), Decimal.Int(r.no))] else [])
    + (if r.prev != prev then [Break(r.tenant, r.no, id, BrokenLink, prev, r.prev)] else [])
    + (if h(r) != r.hash then [Break(r.tenant, r.no, id, HashMismatch, h(r), r.hash)] else [])
  }

  /** Walks a chain, each record checked against what the stored one before it leads to expect. */
  function Walked(check: (Row, int, string) -> seq<Break>, rows: seq<Row>, seqNo: int, prev: string): seq<Break> {
    if rows == [] then []
    else check(rows[0], seqNo, prev) + Walked(check, rows[1..], rows[0].no + 1, rows[0].hash)
  }

  function Breaks(h: Row -> string, rows: seq<Row>, seqNo: int, prev: string): seq<Break> {
    Walked((r, n, p) => Found(h, r, n, p), rows, seqNo, prev)
  }

  function SeqAfter(rows: seq<Row>, seqNo: int): int {
    if rows == [] then seqNo else rows[|rows| - 1].no + 1
  }

  function HashAfter(rows: seq<Row>, prev: string): string {
    if rows == [] then prev else rows[|rows| - 1].hash
  }

  lemma {:induction false} WalkedAppend(check: (Row, int, string) -> seq<Break>, a: seq<Row>, b: seq<Row>, seqNo: int, prev: string)
    ensures Walked(check, a + b, seqNo, prev)
         == Walked(check, a, seqNo, prev) + Walked(check, b, SeqAfter(a, seqNo), HashAfter(a, prev))
    decreases |a|
  {
    if a == [] {
      assert a + b == b;
    } else {
      assert (a + b)[1..] == a[1..] + b && (a + b)[0] == a[0];
      WalkedAppend(check, a[1..], b, a[0].no + 1, a[0].hash);
      Regroup(check(a[0], seqNo, prev), Walked(check, a[1..], a[0].no + 1, a[0].hash),
              Walked(check, b, SeqAfter(a, seqNo), HashAfter(a, prev)));
    }
  }

  lemma BreaksAppend(h: Row -> string, a: seq<Row>, b: seq<Row>, seqNo: int, prev: string)
    ensures Breaks(h, a + b, seqNo, prev)
         == Breaks(h, a, seqNo, prev) + Breaks(h, b, SeqAfter(a, seqNo), HashAfter(a, prev))
  {
    WalkedAppend((r, n, p) => Found(h, r, n, p), a, b, seqNo, prev);
  }

  lemma Regroup<T>(x: seq<T>, y: seq<T>, z: seq<T>)
    ensures x + (y + z) == x + y + z
  {}

  lemma WalkedOne(check: (Row, int, string) -> seq<Break>, r: Row, seqNo: int, prev: string)
    ensures Walked(check, [r], seqNo, prev) == check(r, seqNo, prev)
  {
    assert [r][1..] == [];
  }

  lemma BreaksOne(h: Row -> string, r: Row, seqNo: int, prev: string)
    ensures Breaks(h, [r], seqNo, prev) == Found(h, r, seqNo, prev)
  {
    WalkedOne((r, n, p) => Found(h, r, n, p), r, seqNo, prev);
  }

  lemma BreaksAround(h: Row -> string, a: seq<Row>, r: Row, b: seq<Row>)
    ensures Breaks(h, a + [r] + b, 0, Genesis())
         == Breaks(h, a, 0, Genesis()) + Found(h, r, SeqAfter(a, 0), HashAfter(a, Genesis())) + Breaks(h, b, r.no + 1, r.hash)
  {
    assert a + [r] + b == a + ([r] + b);
    BreaksAppend(h, a, [r] + b, 0, Genesis());
    BreaksFirst(h, r, b, SeqAfter(a, 0), HashAfter(a, Genesis()));
    Regroup(Breaks(h, a, 0, Genesis()), Found(h, r, SeqAfter(a, 0), HashAfter(a, Genesis())), Breaks(h, b, r.no + 1, r.hash));
  }

  lemma BreaksFirst(h: Row -> string, r: Row, b: seq<Row>, seqNo: int, prev: string)
    ensures Breaks(h, [r] + b, seqNo, prev) == Found(h, r, seqNo, prev) + Breaks(h, b, r.no + 1, r.hash)
  {
    BreaksAppend(h, [r], b, seqNo, prev);
    BreaksOne(h, r, seqNo, prev);
  }

  lemma FoundNothing(h: Row -> string, r: Row, seqNo: int, prev: string)
    ensures Found(h, r, seqNo, prev) == [] <==> r.no == seqNo && r.prev == prev && r.hash == h(r)
  {}

  /** In a chain without breaks every record fits, and so does what stands before and after it. */
  lemma NoBreaksAround(h: Row -> string, a: seq<Row>, r: Row, b: seq<Row>)
    requires Breaks(h, a + [r] + b, 0, Genesis()) == []
    ensures Breaks(h, a, 0, Genesis()) == [] && Breaks(h, b, r.no + 1, r.hash) == []
    ensures r.no == SeqAfter(a, 0) && r.prev == HashAfter(a, Genesis()) && r.hash == h(r)
  {
    BreaksAround(h, a, r, b);
    FoundNothing(h, r, SeqAfter(a, 0), HashAfter(a, Genesis()));
  }

  /** A chain that is as it was written: numbered from 0, linked from the genesis value, every hash right. */
  ghost predicate Clean(h: Row -> string, rows: seq<Row>) {
    forall i :: 0 <= i < |rows| ==>
      && rows[i].no == i
      && rows[i].prev == HashAfter(rows[..i], Genesis())
      && rows[i].hash == h(rows[i])
  }

  lemma CleanSnoc(h: Row -> string, init: seq<Row>, r: Row)
    ensures Clean(h, init + [r]) <==>
              Clean(h, init) && r.no == |init| && r.prev == HashAfter(init, Genesis()) && r.hash == h(r)
  {
    var rows := init + [r];
    assert rows[..|init|] == init && rows[|init|] == r;
    assert forall i :: 0 <= i < |init| ==> rows[i] == init[i] && rows[..i] == init[..i];
    if Clean(h, init) && r.no == |init| && r.prev == HashAfter(init, Genesis()) && r.hash == h(r) {
      forall i | 0 <= i < |rows|
        ensures rows[i].no == i && rows[i].prev == HashAfter(rows[..i], Genesis()) && rows[i].hash == h(rows[i])
      {
        if i < |init| { assert init[i].no == i; }
      }
    }
  }

  lemma CleanNext(h: Row -> string, init: seq<Row>)
    requires Clean(h, init)
    ensures SeqAfter(init, 0) == |init|
  {}

  lemma {:induction false} VerifiesExactly(h: Row -> string, rows: seq<Row>)
    ensures Breaks(h, rows, 0, Genesis()) == [] <==> Clean(h, rows)
    decreases |rows|
  {
    if rows != [] {
      var init, last := rows[..|rows| - 1], rows[|rows| - 1];
      assert rows == init + [last];
      VerifiesExactly(h, init);
      CleanSnoc(h, init, last);
      if Clean(h, init) { CleanNext(h, init); }
      BreaksAppend(h, init, [last], 0, Genesis());
      BreaksOne(h, last, SeqAfter(init, 0), HashAfter(init, Genesis()));
      FoundNothing(h, last, SeqAfter(init, 0), HashAfter(init, Genesis()));
    }
  }

  /** Cutting records off the end goes unseen: every prefix of a clean chain is clean. */
  lemma TruncationIsUnseen(h: Row -> string, rows: seq<Row>, n: nat)
    requires n <= |rows| && Breaks(h, rows, 0, Genesis()) == []
    ensures Breaks(h, rows[..n], 0, Genesis()) == []
  {
    assert rows == rows[..n] + rows[n..];
    BreaksAppend(h, rows[..n], rows[n..], 0, Genesis());
  }

  /** Taking a record out of the middle is reported at the record after it, and nowhere else. */
  lemma RemovalIsSeen(h: Row -> string, a: seq<Row>, q: Row, r: Row, b: seq<Row>)
    requires Breaks(h, a + [q] + ([r] + b), 0, Genesis()) == []
    ensures Breaks(h, a + [r] + b, 0, Genesis()) == Found(h, r, q.no, q.prev)
    ensures Found(h, r, q.no, q.prev) != [] && Found(h, r, q.no, q.prev)[0].reason == SequenceGap
  {
    NoBreaksAround(h, a, q, [r] + b);
    assert a + [q] + ([r] + b) == (a + [q]) + [r] + b;
    NoBreaksAround(h, a + [q], r, b);
    BreaksAround(h, a, r, b);
    GapFirst(h, r, q.no, q.prev);
  }

  lemma GapFirst(h: Row -> string, r: Row, seqNo: int, prev: string)
    requires r.no != seqNo
    ensures Found(h, r, seqNo, prev) != [] && Found(h, r, seqNo, prev)[0].reason == SequenceGap
  {}

  function Mismatch(h: Row -> string, r: Row): seq<Break> {
    if h(r) == r.hash then []
    else [Break(r.tenant, r.no, Column(r, DecisionId), HashMismatch, h(r), r.hash)]
  }

  lemma FoundMismatch(h: Row -> string, r: Row)
    ensures Found(h, r, r.no, r.prev) == Mismatch(h, r)
  {}

  /** Rewriting one record's columns is reported once, there, and nowhere else, unless the hash collides. */
  lemma TamperingIsSeenOnce(h: Row -> string, a: seq<Row>, r: Row, b: seq<Row>, cells: map<Field, Cell>)
    requires Breaks(h, a + [r] + b, 0, Genesis()) == []
    ensures Breaks(h, a + [r.(cells := cells)] + b, 0, Genesis()) == Mismatch(h, r.(cells := cells))
  {
    var t := r.(cells := cells);
    NoBreaksAround(h, a, r, b);
    BreaksAround(h, a, t, b);
    FoundMismatch(h, t);
  }

  // ---------------------------------------------------------------- append

  /** `SELECT ... WHERE tenant_id = t ORDER BY chain_seq`; equal numbers stay in table order. */
  function InOrder(rows: seq<Row>, t: string): seq<Row> {
    if rows == [] then []
    else
      var last := rows[|rows| - 1];
      var init := InOrder(rows[..|rows| - 1], t);
      if last.tenant == t then Place(init, last) else init
  }

  function Place(s: seq<Row>, r: Row): seq<Row> {
    if s == [] || s[|s| - 1].no <= r.no then s + [r] else Place(s[..|s| - 1], r) + [s[|s| - 1]]
  }

  predicate Ascending(s: seq<Row>) {
    forall i, j :: 0 <= i < j < |s| ==> s[i].no <= s[j].no
  }

  lemma {:induction false} PlaceKeeps(s: seq<Row>, r: Row)
    ensures multiset(Place(s, r)) == multiset(s) + multiset{r}
  {
    if s != [] && s[|s| - 1].no > r.no {
      assert s == s[..|s| - 1] + [s[|s| - 1]];
      PlaceKeeps(s[..|s| - 1], r);
    }
  }

  lemma {:induction false} PlaceKeepsOrder(s: seq<Row>, r: Row)
    requires Ascending(s)
    ensures Ascending(Place(s, r))
    ensures forall i :: 0 <= i < |Place(s, r)| ==> Place(s, r)[i].no <= r.no || (s != [] && Place(s, r)[i].no <= s[|s| - 1].no)
  {
    if s != [] && s[|s| - 1].no > r.no {
      PlaceKeepsOrder(s[..|s| - 1], r);
    }
  }

  /** The query returns the tenant's rows, each as often as it is stored, in order. */
  lemma {:induction false} InOrderMeaning(rows: seq<Row>, t: string)
    ensures Ascending(InOrder(rows, t))
    ensures forall r :: multiset(InOrder(rows, t))[r] == if r.tenant == t then multiset(rows)[r] else 0
    decreases |rows|
  {
    if rows != [] {
      var init, last := rows[..|rows| - 1], rows[|rows| - 1];
      assert rows == init + [last];
      InOrderMeaning(init, t);
      if last.tenant == t {
        PlaceKeepsOrder(InOrder(init, t), last);
        PlaceKeeps(InOrder(init, t), last);
      }
    }
  }

  /** The record as it is hashed on the way in. */
  function Written(rows: seq<Row>, cells: map<Field, Cell>, t: string): Row {
    var chain := InOrder(rows, t);
    Row(t, SeqAfter(chain, 0), HashAfter(chain, Genesis()), cells, "")
  }

  /** The record as a SELECT returns it. */
  function Stored(h: Row -> string, back: (Field, Cell) -> Cell, rows: seq<Row>, cells: map<Field, Cell>, t: string): Row {
    var w := Written(rows, cells, t);
    w.(cells := map f | f in cells :: back(f, cells[f]), hash := h(w))
  }

  function Appended(h: Row -> string, back: (Field, Cell) -> Cell, rows: seq<Row>, cells: map<Field, Cell>, t: string): seq<Row> {
    rows + [Stored(h, back, rows, cells, t)]
  }

  lemma AppendExtends(h: Row -> string, back: (Field, Cell) -> Cell,
                      rows: seq<Row>, cells: map<Field, Cell>, t: string, u: string)
    ensures InOrder(Appended(h, back, rows, cells, t), u)
         == InOrder(rows, u) + (if u == t then [Stored(h, back, rows, cells, t)] else [])
  {
    assert Appended(h, back, rows, cells, t)[..|rows|] == rows;
  }

  lemma AppendVerifies(h: Row -> string, back: (Field, Cell) -> Cell, rows: seq<Row>, cells: map<Field, Cell>, t: string)
    ensures Clean(h, InOrder(Appended(h, back, rows, cells, t), t))
       <==> Clean(h, InOrder(rows, t)) && h(Stored(h, back, rows, cells, t)) == h(Written(rows, cells, t))
  {
    var a, r := InOrder(rows, t), Stored(h, back, rows, cells, t);
    AppendExtends(h, back, rows, cells, t, t);
    BreaksAppend(h, a, [r], 0, Genesis());
    BreaksOne(h, r, SeqAfter(a, 0), HashAfter(a, Genesis()));
    VerifiesExactly(h, a);
    VerifiesExactly(h, a + [r]);
  }

  // ---------------------------------------------------------------- what the columns give back

  /** NUMERIC(6,5): five places, halves away from zero. */
  function Rounded(x: real): real
    decreases x < 0.0
  {
    if x < 0.0 then -Rounded(-x) else (x * 100000.0 + 0.5).Floor as real / 100000.0
  }

  /** It is the nearest number of that scale, and of two that are equally near the one further from zero. */
  lemma RoundedIs(x: real) returns (n: int)
    ensures Rounded(x) * 100000.0 == n as real
    ensures x >= 0.0 ==> -0.5 <= x * 100000.0 - n as real < 0.5
    ensures x < 0.0 ==> -0.5 < x * 100000.0 - n as real <= 0.5
    decreases x < 0.0
  {
    if x < 0.0 {
      var m := RoundedIs(-x);
      n := -m;
    } else {
      n := (x * 100000.0 + 0.5).Floor;
    }
  }

  function NumberOf(k: Codec, c: Cell): Option<real> {
    match c
    case Exact(x) => Some(x)
    case Plain(Float(r)) => k.valueOf(r)
    case Plain(Int(n)) => Some(n as real)
    case Plain(Bool(b)) => Some(if b then 1.0 else 0.0)
    case Plain(Str(t)) => k.valueOf(t)
    case _ => None
  }

  /** Tenant, number and link are set by the append itself, whatever the record says. */
  predicate Assigned(f: Field) { f.TenantId? || f.ChainSeq? || f.PrevHash? }

  /**
   * A value the driver encodes for the column's type. An integer column takes whatever number it can make an integer
   * of, a NUMERIC one also text that is a number; a float without a number is NaN, which NUMERIC stores as it is.
   */
  predicate Fits(k: Codec, f: Field, c: Cell) {
    || c == Plain(C.Null)
    || match TypeOf(f)
       case Text => c.Plain? && c.json.Str?
       case BigInt => NumberOf(k, c).Some? && !(c.Plain? && c.json.Str?)
       case Boolean => c.Plain? && c.json.Bool?
       case Timestamp => c.Naive? || (c.Instant? && -1440 < c.offset < 1440)
       case Jsonb => c.Plain? && c.json.Str? && k.loads(c.json.s).Some?
       case Numeric5 => (c.Plain? && c.json.Float? && NumberOf(k, c).None?)
                        || (NumberOf(k, c).Some? && -10.0 < Rounded(NumberOf(k, c).value) < 10.0)
  }

  /** A number fits NUMERIC(6, 5) exactly when its rounding has no more than six digits. */
  lemma FitsSixDigits(k: Codec, f: Field, c: Cell)
    requires TypeOf(f) == Numeric5 && NumberOf(k, c).Some?
    ensures Fits(k, f, c) <==> -1000000.0 < Rounded(NumberOf(k, c).value) * 100000.0 < 1000000.0
  {}

  /** What a SELECT returns for a value that was inserted. */
  function Back(k: Codec, f: Field, c: Cell): Cell {
    match TypeOf(f)
    case Timestamp => if c.Instant? then c.(offset := 0) else if c.Naive? then Instant(k.local(c.clock), 0) else c
    case BigInt => if c == Plain(C.Null) || (c.Plain? && c.json.Int?) then c else Plain(C.Int(k.integer(c)))
    case Jsonb =>
      if c.Plain? && c.json.Str? && k.loads(c.json.s).Some? then Plain(Jsonb.Back(k.whole, k.loads(c.json.s).value)) else c
    case Numeric5 => if NumberOf(k, c).Some? then Exact(Rounded(NumberOf(k, c).value)) else c
    case _ => c
  }

  function Reader(k: Codec): (Field, Cell) -> Cell { (f, c) => Back(k, f, c) }

  /**
   * What a caller can check of a value before appending it: an instant is given in UTC, JSON text is not a string
   * that reads as JSON again and holds no number JSONB writes otherwise, an integer column is given an integer, and
   * a NUMERIC value is a float that is the float of its own rounding.
   */
  predicate Keeps(k: Codec, f: Field, c: Cell) {
    match c
    case Instant(_, o) => o == 0
    case Naive(_) => false
    case Exact(x) => TypeOf(f) != BigInt && k.floatOf(Rounded(x)) == k.floatOf(x)
    case Plain(v) =>
      match TypeOf(f)
      case Jsonb =>
        v.Str? && k.loads(v.s).Some? ==> !ReadsAgain(k, k.loads(v.s).value) && Jsonb.Settled(k.loads(v.s).value)
      case BigInt => v.Null? || v.Int?
      case Numeric5 =>
        v.Null? || (v.Float? && (k.valueOf(v.repr).Some? ==> k.floatOf(Rounded(k.valueOf(v.repr).value)) == v.repr))
      case _ => true
  }

  /**
   * Two kinds of value that the table accepts and the check does not: a truth value in an integer column, and a wall
   * clock without an offset.
   */
  lemma AcceptedNotKept(k: Codec, f: Field, b: bool, clock: int)
    ensures TypeOf(f) == BigInt ==> Fits(k, f, Plain(C.Bool(b))) && !Keeps(k, f, Plain(C.Bool(b)))
    ensures TypeOf(f) == Timestamp ==> Fits(k, f, Naive(clock)) && !Keeps(k, f, Naive(clock))
  {}

  ghost predicate ValidCell(c: Cell) { c.Plain? ==> C.Valid(c.json) }

  lemma OffsetShows(k: Codec, m: int, o: int)
    requires -1440 < o < 1440
    ensures InstantText(k, m, o) == InstantText(k, m, 0) <==> o == 0
  {
    var s, z := k.wall(m + o * 60000000), k.wall(m);
    if InstantText(k, m, o) == InstantText(k, m, 0) {
      LastSix(s, OffsetText(o), z, OffsetText(0));
      OnlyZero(o);
    }
  }

  /** A wall clock's text is never an instant's: the lengths 19 and 26 are not six apart. */
  lemma OffsetMissing(k: Codec, m: int, n: int)
    requires PrintsClocks(k.wall)
    ensures k.wall(m) != InstantText(k, n, 0)
  {
    assert |InstantText(k, n, 0)| == |k.wall(n)| + 6;
  }

  lemma OnlyZero(o: int)
    requires -1440 < o < 1440 && OffsetText(o) == OffsetText(0)
    ensures o == 0
  {
    assert OffsetText(0) == "+00:00";
    var a := Magnitude(o);
    var h, m := TwoDigits(a / 60 % 24), TwoDigits(a % 60);
    assert OffsetText(o)[0] == '+' && OffsetText(o)[1..3] == h && OffsetText(o)[4..] == m;
    assert h[0] == OffsetText(o)[1] && h[1] == OffsetText(o)[2] && m[0] == OffsetText(o)[4] && m[1] == OffsetText(o)[5];
    TwoZeros(a / 60 % 24);
    TwoZeros(a % 60);
  }

  lemma LastSix(s: string, a: string, z: string, b: string)
    requires |a| == |b| && s + a == z + b
    ensures a == b
  {
    assert (s + a)[|s|..] == a && (z + b)[|z|..] == b && |s| == |z|;
  }

  lemma TwoZeros(n: nat)
    requires n < 100
    ensures TwoDigits(n)[0] == '0' && TwoDigits(n)[1] == '0' ==> n == 0
  {}

  lemma JsonExactly(k: Codec, f: Field, v: C.Json)
    requires Sound(k) && IsJson(f) && C.Valid(v)
    ensures C.Valid(Jsonb.Back(k.whole, v))
    ensures C.Same(Normalise(k, f, Plain(Jsonb.Back(k.whole, v))), v) <==> !ReadsAgain(k, v) && Jsonb.Settled(v)
  {
    Jsonb.BackValid(k.whole, v);
    Jsonb.BackExactly(k.whole, v);
    C.NormalExactly(Normalise(k, f, Plain(Jsonb.Back(k.whole, v))), v);
  }

  /** A value comes back normalising to what was hashed exactly when the caller's check passes. */
  lemma BackExactly(k: Codec, f: Field, c: Cell)
    requires Sound(k) && Fits(k, f, c) && ValidCell(c)
    ensures ValidCell(Back(k, f, c))
    ensures C.Same(Normalise(k, f, Back(k, f, c)), Normalise(k, f, c)) <==> Keeps(k, f, c)
  {
    C.NormalExactly(Normalise(k, f, c), Normalise(k, f, c));
    match c {
      case Instant(m, o) => if TypeOf(f) == Timestamp { OffsetShows(k, m, o); }
      case Naive(m) => if TypeOf(f) == Timestamp { OffsetMissing(k, m, k.local(m)); }
      case Exact(x) =>
      case Plain(v) => if IsJson(f) && v.Str? { JsonExactly(k, f, k.loads(v.s).value); }
    }
  }

  predicate Accepts(k: Codec, rows: seq<Row>, cells: map<Field, Cell>, t: string) {
    (forall f :: f in cells && !Assigned(f) ==> Fits(k, f, cells[f])) && !k.refuses(rows, Written(rows, cells, t))
  }

  predicate AllKept(k: Codec, cells: map<Field, Cell>) {
    forall f :: f in cells && !Assigned(f) ==> Keeps(k, f, cells[f])
  }

  /** A record is a record: what it holds are values. */
  ghost predicate ValidCells(cells: map<Field, Cell>) {
    forall f :: f in cells ==> ValidCell(cells[f])
  }

  lemma RecordExactly(k: Codec, rows: seq<Row>, cells: map<Field, Cell>, t: string)
    requires Sound(k) && ValidCells(cells) && Accepts(k, rows, cells, t)
    ensures Bytes(k, Stored(Hasher(k), Reader(k), rows, cells, t)) == Bytes(k, Written(rows, cells, t)) <==> AllKept(k, cells)
  {
    var w, s := Written(rows, cells, t), Stored(Hasher(k), Reader(k), rows, cells, t);
    RecordValid(k, rows, cells, t);
    forall f ensures C.Same(At(k, s, f), At(k, w, f)) <==> f !in cells || Assigned(f) || Keeps(k, f, cells[f]) {
      ColumnExactly(k, w, s, f);
    }
    BytesExactly(k, s, w);
  }

  lemma ColumnExactly(k: Codec, w: Row, s: Row, f: Field)
    requires Sound(k) && ValidRow(w) && s.tenant == w.tenant && s.no == w.no && s.prev == w.prev
    requires s.cells == map g | g in w.cells :: Back(k, g, w.cells[g])
    requires f in w.cells && !Assigned(f) ==> Fits(k, f, w.cells[f])
    ensures C.Same(At(k, s, f), At(k, w, f)) <==> f !in w.cells || Assigned(f) || Keeps(k, f, w.cells[f])
  {
    if f in w.cells && !Assigned(f) {
      BackExactly(k, f, w.cells[f]);
    } else {
      FieldValid(k, w, f);
      C.NormalExactly(At(k, w, f), At(k, w, f));
    }
  }

  lemma RecordValid(k: Codec, rows: seq<Row>, cells: map<Field, Cell>, t: string)
    requires Sound(k) && ValidCells(cells) && Accepts(k, rows, cells, t)
    ensures ValidRow(Written(rows, cells, t)) && ValidRow(Stored(Hasher(k), Reader(k), rows, cells, t))
  {
    forall f | f in cells ensures ValidCell(Back(k, f, cells[f])) {
      BackKeepsValid(k, f, cells[f]);
    }
  }

  lemma BackKeepsValid(k: Codec, f: Field, c: Cell)
    requires Sound(k) && ValidCell(c)
    ensures ValidCell(Back(k, f, c))
  {
    if IsJson(f) && c.Plain? && c.json.Str? && k.loads(c.json.s).Some? {
      Jsonb.BackValid(k.whole, k.loads(c.json.s).value);
    }
  }

  /** The two rows an append is about: as it was hashed, and as it is read. */
  ghost predicate CollidesStored(k: Codec, rows: seq<Row>, cells: map<Field, Cell>, t: string) {
    Collides(k, Stored(Hasher(k), Reader(k), rows, cells, t), Written(rows, cells, t))
  }

  /**
   * An append the table accepts keeps a chain clean exactly when every value passes the caller's check, or the
   * record as hashed and as read happen to be a collision of the hash.
   */
  lemma AppendKeepsClean(k: Codec, rows: seq<Row>, cells: map<Field, Cell>, t: string)
    requires Sound(k) && ValidCells(cells) && Accepts(k, rows, cells, t)
    ensures Clean(Hasher(k), InOrder(Appended(Hasher(k), Reader(k), rows, cells, t), t))
       <==> Clean(Hasher(k), InOrder(rows, t)) && (AllKept(k, cells) || CollidesStored(k, rows, cells, t))
  {
    AppendVerifies(Hasher(k), Reader(k), rows, cells, t);
    RecordExactly(k, rows, cells, t);
  }

  datatype Write = Write(tenant: string, cells: map<Field, Cell>)

  /** The table after a history of appends, whatever tenants they are for; a refused one leaves it as it was. */
  function Table(k: Codec, history: seq<Write>): seq<Row> {
    if history == [] then []
    else
      var rows, last := Table(k, history[..|history| - 1]), history[|history| - 1];
      if Accepts(k, rows, last.cells, last.tenant) then Appended(Hasher(k), Reader(k), rows, last.cells, last.tenant) else rows
  }

  /** An append to these rows is accepted, and what it writes will not verify. */
  ghost predicate Spoils(k: Codec, rows: seq<Row>, w: Write) {
    Accepts(k, rows, w.cells, w.tenant) && !AllKept(k, w.cells) && !CollidesStored(k, rows, w.cells, w.tenant)
  }

  /** The appends of a history that spoil a chain. */
  ghost function Spoiling(k: Codec, history: seq<Write>): set<nat> {
    if history == [] then {}
    else
      var n := |history| - 1;
      Spoiling(k, history[..n]) + (if Spoils(k, Table(k, history[..n]), history[n]) then {n} else {})
  }

  ghost predicate Verifies(k: Codec, history: seq<Write>, t: string) {
    Clean(Hasher(k), InOrder(Table(k, history), t))
  }

  lemma LastWrite(k: Codec, history: seq<Write>, t: string)
    requires Sound(k) && history != [] && ValidCells(history[|history| - 1].cells)
    ensures Verifies(k, history, t)
       <==> Verifies(k, history[..|history| - 1], t)
            && (history[|history| - 1].tenant == t ==> !Spoils(k, Table(k, history[..|history| - 1]), history[|history| - 1]))
  {
    var n := |history| - 1;
    var rows, last := Table(k, history[..n]), history[n];
    AppendExtends(Hasher(k), Reader(k), rows, last.cells, last.tenant, t);
    if last.tenant == t && Accepts(k, rows, last.cells, t) {
      AppendKeepsClean(k, rows, last.cells, t);
    }
  }

  /** A tenant's chain verifies exactly when none of its own appends spoils it. */
  lemma {:induction false} ChainVerifiesExactly(k: Codec, history: seq<Write>, t: string)
    requires Sound(k) && forall i :: 0 <= i < |history| ==> ValidCells(history[i].cells)
    ensures Verifies(k, history, t) <==> forall i :: i in Spoiling(k, history) ==> i < |history| && history[i].tenant != t
    decreases |history|
  {
    if history != [] {
      var n := |history| - 1;
      ChainVerifiesExactly(k, history[..n], t);
      SpoilingBelow(k, history[..n]);
      LastWrite(k, history, t);
    }
  }

  lemma {:induction false} SpoilingBelow(k: Codec, history: seq<Write>)
    ensures forall i :: i in Spoiling(k, history) ==> i < |history|
    decreases |history|
  {
    if history != [] { SpoilingBelow(k, history[..|history| - 1]); }
  }

  /** Over all histories, however tenants interleave: every chain verifies exactly when no append spoils one. */
  lemma EveryChainVerifiesExactly(k: Codec, history: seq<Write>)
    requires Sound(k) && forall i :: 0 <= i < |history| ==> ValidCells(history[i].cells)
    ensures (forall t :: Verifies(k, history, t)) <==> Spoiling(k, history) == {}
  {
    forall t ensures Verifies(k, history, t) <==> forall i :: i in Spoiling(k, history) ==> i < |history| && history[i].tenant != t {
      ChainVerifiesExactly(k, history, t);
    }
    SpoilingBelow(k, history);
    if i :| i in Spoiling(k, history) {
      assert !Verifies(k, history, history[i].tenant);
    }
  }

  // ---------------------------------------------------------------- an honest record that does not verify

  /** The nearest multiple of 1/scale, ties to even: a double, for the scale of its binade. */
  function Double(x: real, scale: real): real
    requires scale > 0.0
  {
    var f := (x * scale).Floor;
    var r := x * scale - f as real;
    (if r < 0.5 || (r == 0.5 && f % 2 == 0) then f else f + 1) as real / scale
  }

  const TWO_TO_53: real := 9007199254740992.0
  const TWO_TO_55: real := 36028797018963968.0

  /** Between one half and one, the text of a number's float stands for its nearest double. */
  ghost predicate Doubles(k: Codec) {
    forall x :: 0.5 <= x < 1.0 ==> k.valueOf(k.floatOf(x)) == Some(Double(x, TWO_TO_53))
  }

  /** 1.0 - 0.18 in doubles: the propensity of the treatment arm when the control share is 0.180. */
  function TreatmentShare(): real { Double(1.0 - Double(0.18, TWO_TO_55), TWO_TO_53) }

  lemma TreatmentShareIsUnrounded(k: Codec, r: string)
    requires Doubles(k) && k.valueOf(r) == Some(TreatmentShare())
    ensures Fits(k, Propensity, Plain(C.Float(r))) && !Keeps(k, Propensity, Plain(C.Float(r)))
  {
    assert Double(0.18, TWO_TO_55) == 6485183463413514.0 / TWO_TO_55;
    assert TreatmentShare() == 7385903388887614.0 / TWO_TO_53;
    assert Rounded(TreatmentShare()) == 0.82;
    assert Double(0.82, TWO_TO_53) == 7385903388887613.0 / TWO_TO_53;
  }

  /** So an honest record of that propensity spoils its tenant's chain, unless its two forms collide. */
  lemma UnroundedPropensitySpoils(k: Codec, rows: seq<Row>, cells: map<Field, Cell>, t: string, r: string)
    requires Sound(k) && Doubles(k) && ValidCells(cells) && Accepts(k, rows, cells, t)
    requires k.valueOf(r) == Some(TreatmentShare()) && Propensity in cells && cells[Propensity] == Plain(C.Float(r))
    ensures !Clean(Hasher(k), InOrder(Appended(Hasher(k), Reader(k), rows, cells, t), t)) || CollidesStored(k, rows, cells, t)
  {
    TreatmentShareIsUnrounded(k, r);
    AppendKeepsClean(k, rows, cells, t);
  }

  /** Nor does one with a JSON column that holds, however deep, a number JSONB writes otherwise. */
  lemma UnsettledJsonSpoils(k: Codec, rows: seq<Row>, cells: map<Field, Cell>, t: string, f: Field, text: string)
    requires Sound(k) && ValidCells(cells) && Accepts(k, rows, cells, t)
    requires IsJson(f) && f in cells && cells[f] == Plain(C.Str(text))
    requires k.loads(text).Some? && !Jsonb.Settled(k.loads(text).value)
    ensures !Clean(Hasher(k), InOrder(Appended(Hasher(k), Reader(k), rows, cells, t), t)) || CollidesStored(k, rows, cells, t)
  {
    assert !Keeps(k, f, cells[f]);
    AppendKeepsClean(k, rows, cells, t);
  }

  /** Such as a zero with a sign: the record was hashed over {"name": -0.0}, and {"name": 0.0} is what is read back. */
  lemma NegativeZeroSpoils(
    k: Codec, rows: seq<Row>, cells: map<Field, Cell>, t: string, f: Field, text: string, name: string)
    requires Sound(k) && ValidCells(cells) && Accepts(k, rows, cells, t)
    requires IsJson(f) && f in cells && cells[f] == Plain(C.Str(text))
    requires k.loads(text) == Some(C.Object(C.Member(name, C.Float(Jsonb.NEGATIVE_ZERO), C.End)))
    ensures Back(k, f, cells[f]) == Plain(C.Object(C.Member(name, C.Float("0.0"), C.End)))
    ensures !Clean(Hasher(k), InOrder(Appended(Hasher(k), Reader(k), rows, cells, t), t)) || CollidesStored(k, rows, cells, t)
  {
    Jsonb.SignLost(k.whole, name);
    UnsettledJsonSpoils(k, rows, cells, t, f, text);
  }

  // ---------------------------------------------------------------- the head hash commits to everything

  ghost predicate Collides(k: Codec, a: Row, b: Row) {
    Bytes(k, a) != Bytes(k, b) && k.sha(Bytes(k, a)) == k.sha(Bytes(k, b))
  }

  lemma SameHashSameRecord(k: Codec, a: Row, b: Row)
    requires Sound(k) && ValidRow(a) && ValidRow(b)
    requires k.sha(Bytes(k, a)) == k.sha(Bytes(k, b))
    ensures Collides(k, a, b) || (Agree(k, a, b) && a.no == b.no && a.prev == b.prev && a.tenant == b.tenant)
  {
    BytesExactly(k, a, b);
    if Agree(k, a, b) {
      assert C.Same(At(k, a, ChainSeq), At(k, b, ChainSeq));
      assert C.Same(At(k, a, PrevHash), At(k, b, PrevHash));
      assert C.Same(At(k, a, TenantId), At(k, b, TenantId));
    }
  }

  ghost predicate SameRecords(k: Codec, a: seq<Row>, b: seq<Row>) {
    |a| == |b| && forall i :: 0 <= i < |a| ==> Agree(k, a[i], b[i])
  }

  ghost predicate ShowCollision(k: Codec, a: seq<Row>, b: seq<Row>) {
    exists i, j :: 0 <= i < |a| && 0 <= j < |b| && Collides(k, a[i], b[j])
  }

  lemma CleanInit(h: Row -> string, rows: seq<Row>)
    requires rows != [] && Clean(h, rows)
    ensures var n := |rows| - 1;
            Clean(h, rows[..n]) && rows[n].no == n && rows[n].prev == HashAfter(rows[..n], Genesis()) && rows[n].hash == h(rows[n])
  {
    assert forall i :: 0 <= i < |rows| - 1 ==> rows[..|rows| - 1][..i] == rows[..i];
  }

  /**
   * Two clean chains with the same head hash have the same length and agree on every hashed column of
   * every record, or they contain a collision of the hash.
   */
  lemma {:induction false} HeadHashCommits(k: Codec, a: seq<Row>, b: seq<Row>)
    requires Sound(k) && Clean(Hasher(k), a) && Clean(Hasher(k), b) && a != [] && b != []
    requires (forall r :: r in a ==> ValidRow(r)) && (forall r :: r in b ==> ValidRow(r))
    requires a[|a| - 1].hash == b[|b| - 1].hash
    ensures SameRecords(k, a, b) || ShowCollision(k, a, b)
    decreases |a|
  {
    var m, n := |a| - 1, |b| - 1;
    CleanInit(Hasher(k), a);
    CleanInit(Hasher(k), b);
    SameHashSameRecord(k, a[m], b[n]);
    if !Collides(k, a[m], b[n]) && m > 0 {
      HeadHashCommits(k, a[..m], b[..n]);
      Extend(k, a, b);
    }
  }

  lemma Extend(k: Codec, a: seq<Row>, b: seq<Row>)
    requires |a| == |b| > 0 && Agree(k, a[|a| - 1], b[|a| - 1])
    requires SameRecords(k, a[..|a| - 1], b[..|a| - 1]) || ShowCollision(k, a[..|a| - 1], b[..|a| - 1])
    ensures SameRecords(k, a, b) || ShowCollision(k, a, b)
  {
    var c, d := a[..|a| - 1], b[..|a| - 1];
    if SameRecords(k, c, d) {
      forall i | 0 <= i < |a| ensures Agree(k, a[i], b[i]) {
        if i < |c| { assert Agree(k, c[i], d[i]); }
      }
    } else {
      var i, j :| 0 <= i < |c| && 0 <= j < |d| && Collides(k, c[i], d[j]);
      assert Collides(k, a[i], b[j]);
    }
  }

  // ---------------------------------------------------------------- the ledger table

  class Ledger {
    const codec: Codec
    var rows: seq<Row>

    constructor (k: Codec)
      ensures codec == k && rows == []
    {
      codec := k;
      rows := [];
    }

    /** `None` is the table refusing the row, which rolls the transaction back. */
    method Append(cells: map<Field, Cell>, tenant: string) returns (hash: Option<string>)
      modifies this
      ensures hash.Some? <==> Accepts(codec, old(rows), cells, tenant)
      ensures hash.Some? ==>
                rows == Appended(Hasher(codec), Reader(codec), old(rows), cells, tenant) && hash.value == rows[|rows| - 1].hash
      ensures hash.None? ==> rows == old(rows)
    {
      var chain := InOrder(rows, tenant);
      var seqNo, prev := 0, Genesis();
      if chain != [] {
        var head := chain[|chain| - 1];
        seqNo, prev := head.no + 1, head.hash;
      }
      var body := Row(tenant, seqNo, prev, cells, "");
      assert body == Written(rows, cells, tenant);
      if !Accepts(codec, rows, cells, tenant) { return None; }
      var recordHash := Hasher(codec)(body);
      rows := rows + [body.(cells := map f | f in cells :: Reader(codec)(f, cells[f]), hash := recordHash)];
      hash := Some(recordHash);
    }

    method VerifyChain(tenant: string) returns (breaks: seq<Break>)
      ensures breaks == Breaks(Hasher(codec), InOrder(rows, tenant), 0, Genesis())
      ensures breaks == [] <==> Clean(Hasher(codec), InOrder(rows, tenant))
    {
      breaks := Walk(Hasher(codec), Genesis(), InOrder(rows, tenant));
      VerifiesExactly(Hasher(codec), InOrder(rows, tenant));
    }
  }

  method Check(h: Row -> string, row: Row, expectedSeq: int, expectedPrev: string) returns (found: seq<Break>)
    ensures found == Found(h, row, expectedSeq, expectedPrev)
  {
    var id := Column(row, DecisionId);
    found := [];
    if row.no != expectedSeq {
      found := found + [Break(row.tenant, row.no, id, SequenceGap, Decimal.Int(expectedSeq), Decimal.Int(row.no))];
    }
    if row.prev != expectedPrev {
      found := found + [Break(row.tenant, row.no, id, BrokenLink, expectedPrev, row.prev)];
    }
    var recomputed := h(row);
    if recomputed != row.hash {
      found := found + [Break(row.tenant, row.no, id, HashMismatch, recomputed, row.hash)];
    }
  }

  method Walk(h: Row -> string, genesis: string, rows: seq<Row>) returns (breaks: seq<Break>)
    ensures breaks == Breaks(h, rows, 0, genesis)
  {
    breaks := [];
    var expectedPrev, expectedSeq := genesis, 0;
    var i := 0;
    while i < |rows|
      invariant 0 <= i <= |rows|
      invariant breaks == Breaks(h, rows[..i], 0, genesis)
      invariant expectedSeq == SeqAfter(rows[..i], 0) && expectedPrev == HashAfter(rows[..i], genesis)
    {
      var row := rows[i];
      var found := Check(h, row, expectedSeq, expectedPrev);
      breaks := breaks + found;
      BreaksNext(h, genesis, rows, i);
      expectedPrev, expectedSeq := row.hash, row.no + 1;
      i := i + 1;
    }
    assert rows[..i] == rows;
  }

  lemma BreaksNext(h: Row -> string, genesis: string, rows: seq<Row>, i: nat)
    requires i < |rows|
    ensures Breaks(h, rows[..i + 1], 0, genesis)
         == Breaks(h, rows[..i], 0, genesis) + Found(h, rows[i], SeqAfter(rows[..i], 0), HashAfter(rows[..i], genesis))
    ensures SeqAfter(rows[..i + 1], 0) == rows[i].no + 1 && HashAfter(rows[..i + 1], genesis) == rows[i].hash
  {
    assert rows[..i + 1] == rows[..i] + [rows[i]];
    BreaksAppend(h, rows[..i], [rows[i]], 0, genesis);
    BreaksOne(h, rows[i], SeqAfter(rows[..i], 0), HashAfter(rows[..i], genesis));
  }
}
