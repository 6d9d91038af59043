/** The compliance gate (prayas/gate/engine.py): one verdict and one recorded check per rule. */
module Gate {
  import opened Common

  datatype Verdict = ALLOW | DEFER | ESCALATE_HUMAN | DENY

  function Precedence(v: Verdict): nat {
    match v
    case ALLOW => 0
    case DEFER => 1
    case ESCALATE_HUMAN => 2
    case DENY => 3
  }

  /** What evaluating one predicate produced. The predicate language itself is uninterpreted. */
  datatype Evaluation = Passed | NotPassed | PredicateError

  /** `onFail` is what the column holds: a verdict, or text the gate does not recognise. */
  datatype OnFail = Known(verdict: Verdict) | Unknown(text: string)

  datatype Rule = Rule(ruleId: string, version: nat, onFail: OnFail)

  datatype Check = Check(ruleId: string, version: nat, verdict: Verdict)

  datatype GateResult = GateResult(verdict: Verdict, checks: seq<Check>, degraded: bool) {
    predicate Allowed() { verdict == ALLOW }
  }

  /** The rule store as read at fire time: unreadable, or the rules in force with their evaluations. */
  type RuleReading = Option<seq<(Rule, Evaluation)>>

  function CoerceOnFail(rule: Rule): Verdict {
    match rule.onFail
    case Known(v) => v
    case Unknown(_) => DENY
  }

  function CheckOf(read: (Rule, Evaluation)): Check {
    Check(read.0.ruleId, read.0.version, if read.1.Passed? then ALLOW else CoerceOnFail(read.0))
  }

  function Worse(a: Verdict, b: Verdict): Verdict {
    if Precedence(b) > Precedence(a) then b else a
  }

  /** The schema's CHECK on the column: a failing rule may deny, defer or escalate, never allow. */
  predicate OnFailConstrained(rules: seq<(Rule, Evaluation)>) {
    forall i :: 0 <= i < |rules| ==> rules[i].0.onFail.Known? && rules[i].0.onFail.verdict != ALLOW
  }

  /**
   * Evaluates every rule, even after a denial. The result is characterised without the loop: the
   * i-th check is the i-th rule's, and the verdict is the greatest check under the precedence.
   */
  method EvaluateRules(rules: seq<(Rule, Evaluation)>) returns (r: GateResult)
    ensures |r.checks| == |rules| && !r.degraded
    ensures forall i :: 0 <= i < |rules| ==> r.checks[i] == CheckOf(rules[i])
    ensures forall i :: 0 <= i < |rules| ==> Precedence(r.checks[i].verdict) <= Precedence(r.verdict)
    ensures r.verdict == ALLOW || exists i :: 0 <= i < |rules| && r.checks[i].verdict == r.verdict
    ensures r == Verdicts(rules)
  {
    var checks: seq<Check> := [];
    var worst := ALLOW;
    for k := 0 to |rules|
      invariant |checks| == k
      invariant forall i :: 0 <= i < k ==> checks[i] == CheckOf(rules[i])
      invariant forall i :: 0 <= i < k ==> Precedence(checks[i].verdict) <= Precedence(worst)
      invariant worst == ALLOW || exists i :: 0 <= i < k && checks[i].verdict == worst
    {
      var check := CheckOf(rules[k]);
      checks := checks + [check];
      worst := Worse(worst, check.verdict);
    }
    r := GateResult(worst, checks, false);
    VerdictsUnique(rules, r);
  }

  /** The specification function the fire transaction refers to. */
  function Verdicts(rules: seq<(Rule, Evaluation)>): GateResult {
    GateResult(WorstOf(rules), seq(|rules|, i requires 0 <= i < |rules| => CheckOf(rules[i])), false)
  }

  function WorstOf(rules: seq<(Rule, Evaluation)>): Verdict {
    if rules == [] then ALLOW
    else Worse(WorstOf(rules[..|rules| - 1]), CheckOf(rules[|rules| - 1]).verdict)
  }

  lemma {:induction false} WorstIsGreatest(rules: seq<(Rule, Evaluation)>)
    ensures forall i :: 0 <= i < |rules| ==> Precedence(CheckOf(rules[i]).verdict) <= Precedence(WorstOf(rules))
    ensures WorstOf(rules) == ALLOW || exists i :: 0 <= i < |rules| && CheckOf(rules[i]).verdict == WorstOf(rules)
  {
    if rules != [] {
      var init := rules[..|rules| - 1];
      WorstIsGreatest(init);
      assert forall i :: 0 <= i < |init| ==> rules[i] == init[i];
      if WorstOf(rules) != ALLOW && WorstOf(rules) == WorstOf(init) {
        var i :| 0 <= i < |init| && CheckOf(init[i]).verdict == WorstOf(init);
        assert CheckOf(rules[i]).verdict == WorstOf(rules);
      }
    }
  }

  lemma VerdictsUnique(rules: seq<(Rule, Evaluation)>, r: GateResult)
    requires |r.checks| == |rules| && !r.degraded
    requires forall i :: 0 <= i < |rules| ==> r.checks[i] == CheckOf(rules[i])
    requires forall i :: 0 <= i < |rules| ==> Precedence(r.checks[i].verdict) <= Precedence(r.verdict)
    requires r.verdict == ALLOW || exists i :: 0 <= i < |rules| && r.checks[i].verdict == r.verdict
    ensures r == Verdicts(rules)
  {
    WorstIsGreatest(rules);
    var w := WorstOf(rules);
    if w != ALLOW {
      var i :| 0 <= i < |rules| && CheckOf(rules[i]).verdict == w;
      assert Precedence(r.checks[i].verdict) <= Precedence(r.verdict);
    }
    if r.verdict != ALLOW {
      var i :| 0 <= i < |rules| && r.checks[i].verdict == r.verdict;
      assert CheckOf(rules[i]).verdict == r.verdict;
    }
    assert r.checks == Verdicts(rules).checks;
  }

  /** The chokepoint: an unreadable store and an uncovered action both deny, marked degraded. */
  function Evaluate(reading: RuleReading): GateResult {
    match reading
    case None => GateResult(DENY, [Check("__RULE_STORE__", 0, DENY)], true)
    case Some(rules) =>
      if rules == [] then GateResult(DENY, [Check("__NO_RULES__", 0, DENY)], true)
      else Verdicts(rules)
  }

  /** A rule that did not pass and answers so: an `on_fail` the gate does not recognise answers DENY. */
  predicate Answers(read: (Rule, Evaluation), v: Verdict) {
    !read.1.Passed? && (read.0.onFail == Known(v) || (read.0.onFail.Unknown? && v == DENY))
  }

  ghost predicate SomeAnswers(rules: seq<(Rule, Evaluation)>, v: Verdict) {
    exists i :: 0 <= i < |rules| && Answers(rules[i], v)
  }

  /** One denial denies; else one escalation escalates; else one deferral defers; else the action is allowed. */
  lemma {:induction false} VerdictExactly(rules: seq<(Rule, Evaluation)>)
    ensures var v := Verdicts(rules).verdict;
            && (v == DENY <==> SomeAnswers(rules, DENY))
            && (v == ESCALATE_HUMAN <==> !SomeAnswers(rules, DENY) && SomeAnswers(rules, ESCALATE_HUMAN))
            && (v == DEFER <==>
                  !SomeAnswers(rules, DENY) && !SomeAnswers(rules, ESCALATE_HUMAN) && SomeAnswers(rules, DEFER))
  {
    if rules != [] {
      var init, last := rules[..|rules| - 1], rules[|rules| - 1];
      VerdictExactly(init);
      AnswersSnoc(init, last, DENY);
      AnswersSnoc(init, last, ESCALATE_HUMAN);
      AnswersSnoc(init, last, DEFER);
      assert rules == init + [last];
    }
  }

  lemma AnswersSnoc(init: seq<(Rule, Evaluation)>, last: (Rule, Evaluation), v: Verdict)
    ensures SomeAnswers(init + [last], v) <==> SomeAnswers(init, v) || Answers(last, v)
  {
    var rules := init + [last];
    assert rules[|init|] == last && forall i :: 0 <= i < |init| ==> rules[i] == init[i];
  }

  /** What is left as evidence: each rule by name and version, in order, and whether the gate could judge at all. */
  lemma EvidenceNamesRules(reading: RuleReading)
    ensures Evaluate(reading).degraded <==> reading.None? || reading.value == []
    ensures Evaluate(reading).degraded ==>
              Evaluate(reading).verdict == DENY
              && Evaluate(reading).checks == [Check(if reading.None? then "__RULE_STORE__" else "__NO_RULES__", 0, DENY)]
    ensures !Evaluate(reading).degraded ==>
              var checks := Evaluate(reading).checks;
              && |checks| == |reading.value|
              && forall i :: 0 <= i < |checks| ==>
                   && checks[i].ruleId == reading.value[i].0.ruleId && checks[i].version == reading.value[i].0.version
                   && (checks[i].verdict == ALLOW <==> reading.value[i].1.Passed? || reading.value[i].0.onFail == Known(ALLOW))
                   && (checks[i].verdict != ALLOW ==> Answers(reading.value[i], checks[i].verdict))
  {}

  /** ALLOW leaves as evidence at least one check, and every check says ALLOW. */
  lemma AllowedEvidence(reading: RuleReading)
    ensures Evaluate(reading).Allowed() <==>
            && |Evaluate(reading).checks| > 0
            && forall i :: 0 <= i < |Evaluate(reading).checks| ==> Evaluate(reading).checks[i].verdict == ALLOW
  {
    if reading.Some? && reading.value != [] {
      var rules, r := reading.value, Evaluate(reading);
      WorstIsGreatest(rules);
      if !r.Allowed() {
        var i :| 0 <= i < |rules| && CheckOf(rules[i]).verdict == r.verdict;
        assert r.checks[i].verdict != ALLOW;
      } else {
        forall i | 0 <= i < |r.checks| ensures r.checks[i].verdict == ALLOW {
          assert Precedence(CheckOf(rules[i]).verdict) <= 0;
        }
      }
    } else {
      assert Evaluate(reading).checks[0].verdict == DENY;
    }
  }

  /**
   * Exactly when the gate lets an action through: the rules could be read, there is at least one,
   * and each of them passed or carries an `on_fail` of ALLOW, which the gate itself accepts.
   */
  lemma AllowedExactlyWhen(reading: RuleReading)
    ensures Evaluate(reading).Allowed() <==>
            && reading.Some? && reading.value != []
            && forall i :: 0 <= i < |reading.value| ==>
                 reading.value[i].1.Passed? || reading.value[i].0.onFail == Known(ALLOW)
  {
    AllowedEvidence(reading);
    if reading.Some? && reading.value != [] {
      var rules, r := reading.value, Evaluate(reading);
      assert forall i :: 0 <= i < |rules| ==> r.checks[i] == CheckOf(rules[i]);
      if forall i :: 0 <= i < |rules| ==> r.checks[i].verdict == ALLOW {
        forall i | 0 <= i < |rules| ensures rules[i].1.Passed? || rules[i].0.onFail == Known(ALLOW) {
          assert r.checks[i] == CheckOf(rules[i]);
        }
      }
    }
  }

  /** Under the schema's CHECK, ALLOW means every rule in force was evaluated and passed. */
  lemma AllowedMeansAllPassed(rules: seq<(Rule, Evaluation)>)
    requires OnFailConstrained(rules)
    ensures Evaluate(Some(rules)).Allowed() <==>
            rules != [] && forall i :: 0 <= i < |rules| ==> rules[i].1.Passed?
  {
    AllowedExactlyWhen(Some(rules));
  }

  /** Without it the gate fails open: a single failing rule whose `on_fail` reads ALLOW is allowed. */
  lemma OnFailAllowFailsOpen()
    ensures Evaluate(Some([(Rule("R", 1, Known(ALLOW)), PredicateError)])).Allowed()
  {
    AllowedExactlyWhen(Some([(Rule("R", 1, Known(ALLOW)), PredicateError)]));
  }
}
