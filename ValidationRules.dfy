/**
 * The per-field validation rules (MaxLengthRule, IsMultipleChoiceRule),
 * the registry that finds a rule's validator by its rule type, and the
 * dispatch of a field's rules in order, stopping at the first failure.
 */
module ValidationRules {
  import opened Results
  import opened Values
  import opened Lexical
  import opened Forms

  /** The message of a `ValidationRuleException`. */
  datatype Violation =
    | TooLong(fieldLabel: string, maxLength: int)
    | NotAList(fieldLabel: string)
    | InvalidChoice(fieldLabel: string, answer: Value)

  /** Why a rule did not pass: its own exception, or a Java runtime exception. */
  datatype RuleFailure = Violated(violation: Violation) | Crashed(crash: Crash)

  /**
   * MaxLengthRule.validate: the rule value is parsed with `Integer.parseInt`
   * first, then the input is cast to `String` and its length compared.
   */
  function ValidateMaxLength(input: Value, field: Field, rule: Rule): (o: Outcome<RuleFailure>)
    ensures ParseInt(rule.value).None? ==> o == Fail(Crashed(NumberFormat))
    ensures ParseInt(rule.value).Some? && !input.Str? ==> o.Fail? && o.error.Crashed?
    ensures ParseInt(rule.value).Some? && input.Str? ==>
      (o.Pass? <==> |input.s| <= ParseInt(rule.value).value) &&
      (o.Fail? ==> o.error == Violated(TooLong(field.fieldLabel, ParseInt(rule.value).value)))
  {
    match ParseInt(rule.value)
    case None => Fail(Crashed(NumberFormat))
    case Some(maxLength) =>
      match input
      case Null => Fail(Crashed(NullPointer))
      case Str(s) =>
        if |s| > maxLength then Fail(Violated(TooLong(field.fieldLabel, maxLength))) else Pass
      case _ => Fail(Crashed(ClassCast))
  }

  /** A string whose length is exactly the limit is accepted; one more character is not. */
  lemma MaxLengthBoundary(field: Field, n: nat, s: string, c: char)
    requires n <= INT_MAX && |s| == n
    ensures ValidateMaxLength(Str(s), field, Rule(MaxLength, NatText(n))) == Pass
    ensures ValidateMaxLength(Str(s + [c]), field, Rule(MaxLength, NatText(n)))
            == Fail(Violated(TooLong(field.fieldLabel, n)))
  {
    ParseIntOfNatText(n);
  }

  /** An element IsMultipleChoiceRule accepts: a string among the field's choices. */
  predicate IsAllowedChoice(field: Field, x: Value)
  {
    x.Str? && field.options.Some? && x.s in field.options.value
  }

  /**
   * The exception for a rejected element: a non-string is reported as an
   * invalid choice before the choices are read; reading the choices of a
   * field without options is a `NullPointerException`.
   */
  function ChoiceFailure(field: Field, x: Value): RuleFailure
  {
    if x.Str? && field.options.None? then Crashed(NullPointer)
    else Violated(InvalidChoice(field.fieldLabel, x))
  }

  /** The loop of IsMultipleChoiceRule.validate over the list elements. */
  function CheckChoices(items: seq<Value>, field: Field): (o: Outcome<RuleFailure>)
    ensures o.Pass? <==> forall i :: 0 <= i < |items| ==> IsAllowedChoice(field, items[i])
    ensures o.Fail? ==>
      exists k :: 0 <= k < |items| && !IsAllowedChoice(field, items[k]) &&
        (forall j :: 0 <= j < k ==> IsAllowedChoice(field, items[j])) &&
        o.error == ChoiceFailure(field, items[k])
  {
    if items == [] then Pass
    else if !IsAllowedChoice(field, items[0]) then Fail(ChoiceFailure(field, items[0]))
    else
      var o := CheckChoices(items[1..], field);
      assert o.Fail? ==>
        exists k :: 0 <= k < |items| && !IsAllowedChoice(field, items[k]) &&
          (forall j :: 0 <= j < k ==> IsAllowedChoice(field, items[j])) &&
          o.error == ChoiceFailure(field, items[k])
      by {
        if o.Fail? {
          var k :| 0 <= k < |items[1..]| && !IsAllowedChoice(field, items[1..][k]) &&
            (forall j :: 0 <= j < k ==> IsAllowedChoice(field, items[1..][j])) &&
            o.error == ChoiceFailure(field, items[1..][k]);
          assert forall j :: 0 <= j < k + 1 ==> IsAllowedChoice(field, items[j]) by {
            forall j | 0 <= j < k + 1 ensures IsAllowedChoice(field, items[j]) {
              if j > 0 { assert items[j] == items[1..][j - 1]; }
            }
          }
          assert items[k + 1] == items[1..][k];
        }
      }
      o
  }

  /** IsMultipleChoiceRule.validate. */
  function ValidateMultipleChoice(input: Value, field: Field): (o: Outcome<RuleFailure>)
    ensures !input.List? ==> o == Fail(Violated(NotAList(field.fieldLabel)))
    ensures o.Pass? <==>
      input.List? && forall i :: 0 <= i < |input.items| ==> IsAllowedChoice(field, input.items[i])
  {
    if input.List? then CheckChoices(input.items, field)
    else Fail(Violated(NotAList(field.fieldLabel)))
  }

  /** Acceptance depends only on which elements occur: not on order, not on repetition. */
  lemma MultipleChoiceIgnoresOrderAndRepetition(field: Field, xs: seq<Value>, ys: seq<Value>)
    requires forall x :: x in xs <==> x in ys
    ensures ValidateMultipleChoice(List(xs), field).Pass? <==> ValidateMultipleChoice(List(ys), field).Pass?
  {
    if ValidateMultipleChoice(List(xs), field).Pass? {
      MultipleChoiceSubList(field, xs, ys);
    }
    if ValidateMultipleChoice(List(ys), field).Pass? {
      MultipleChoiceSubList(field, ys, xs);
    }
  }

  /** Every list made of elements of an accepted list (any sub-list in particular) is accepted. */
  lemma MultipleChoiceSubList(field: Field, xs: seq<Value>, ys: seq<Value>)
    requires ValidateMultipleChoice(List(xs), field).Pass?
    requires forall y :: y in ys ==> y in xs
    ensures ValidateMultipleChoice(List(ys), field).Pass?
  {
    forall i | 0 <= i < |ys| ensures IsAllowedChoice(field, ys[i]) {
      assert ys[i] in ys;
      var k :| 0 <= k < |xs| && xs[k] == ys[i];
    }
  }

  /** The validator objects registered for rule dispatch. */
  datatype Validator = MaxLengthRule | IsMultipleChoiceRule {

    /** getRuleType */
    function GetRuleType(): RuleType
    {
      match this
      case MaxLengthRule => MaxLength
      case IsMultipleChoiceRule => IsMultipleChoice
    }

    /** validate(userInput, field, rule) */
    function Validate(input: Value, field: Field, rule: Rule): Outcome<RuleFailure>
    {
      match this
      case MaxLengthRule => ValidateMaxLength(input, field, rule)
      case IsMultipleChoiceRule => ValidateMultipleChoice(input, field)
    }
  }

  const Registered: seq<Validator> := [MaxLengthRule, IsMultipleChoiceRule]

  /** The registered validator whose rule type is `t`, if any. */
  function Lookup(t: RuleType): (r: Option<Validator>)
    ensures r.Some? <==> exists i :: 0 <= i < |Registered| && Registered[i].GetRuleType() == t
    ensures r.Some? ==> r.value in Registered && r.value.GetRuleType() == t
  {
    if MaxLengthRule.GetRuleType() == t then
      assert Registered[0].GetRuleType() == t;
      Some(MaxLengthRule)
    else if IsMultipleChoiceRule.GetRuleType() == t then
      assert Registered[1].GetRuleType() == t;
      Some(IsMultipleChoiceRule)
    else None
  }

  /**
   * Each validator is found under the rule type it reports, so the two
   * rules report different types; IS_RADIO has no validator.
   */
  lemma RegistryKeyedByRuleType()
    ensures Lookup(MaxLengthRule.GetRuleType()) == Some(MaxLengthRule)
    ensures Lookup(IsMultipleChoiceRule.GetRuleType()) == Some(IsMultipleChoiceRule)
    ensures MaxLengthRule.GetRuleType() == MaxLength
    ensures IsMultipleChoiceRule.GetRuleType() == IsMultipleChoice
    ensures Lookup(IsRadio) == None
  {
  }

  /** One rule of a field applied to an answer; a rule without a validator passes. */
  function ApplyRule(rule: Rule, field: Field, answer: Value): Outcome<RuleFailure>
  {
    match Lookup(rule.ruleType)
    case None => Pass
    case Some(v) => v.Validate(answer, field, rule)
  }

  /** The rules `rules` applied in order; the first failure stops the walk. */
  function ValidateRules(rules: seq<Rule>, field: Field, answer: Value): (o: Outcome<RuleFailure>)
    ensures o.Pass? <==> forall i :: 0 <= i < |rules| ==> ApplyRule(rules[i], field, answer).Pass?
    ensures o.Fail? ==>
      exists k :: 0 <= k < |rules| && o == ApplyRule(rules[k], field, answer) &&
        forall j :: 0 <= j < k ==> ApplyRule(rules[j], field, answer).Pass?
  {
    if rules == [] then Pass
    else if ApplyRule(rules[0], field, answer).Fail? then ApplyRule(rules[0], field, answer)
    else
      var o := ValidateRules(rules[1..], field, answer);
      assert o.Fail? ==>
        exists k :: 0 <= k < |rules| && o == ApplyRule(rules[k], field, answer) &&
          forall j :: 0 <= j < k ==> ApplyRule(rules[j], field, answer).Pass?
      by {
        if o.Fail? {
          var k :| 0 <= k < |rules[1..]| && o == ApplyRule(rules[1..][k], field, answer) &&
            forall j :: 0 <= j < k ==> ApplyRule(rules[1..][j], field, answer).Pass?;
          assert rules[k + 1] == rules[1..][k];
          forall j | 0 <= j < k + 1 ensures ApplyRule(rules[j], field, answer).Pass? {
            if j > 0 { assert rules[j] == rules[1..][j - 1]; }
          }
        }
      }
      o
  }

  /** The field's rules applied to an answer (FieldService.validateFieldsRules). */
  function ValidateFieldsRules(field: Field, answer: Value): Outcome<RuleFailure>
  {
    ValidateRules(field.rules, field, answer)
  }

  /** Multiple-choice examples with choices A and B. */
  lemma MultipleChoiceExamples(field: Field)
    requires field.options == Some(["A", "B"])
    ensures ValidateMultipleChoice(List([Str("A")]), field).Pass?
    ensures ValidateMultipleChoice(List([Str("A"), Str("B")]), field).Pass?
    ensures ValidateMultipleChoice(List([Str("C")]), field).Fail?
    ensures ValidateMultipleChoice(Str("A"), field) == Fail(Violated(NotAList(field.fieldLabel)))
    ensures ValidateMultipleChoice(List([]), field).Pass?
  {
    assert !IsAllowedChoice(field, List([Str("C")]).items[0]);
  }
}
