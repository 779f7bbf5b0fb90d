/**
 * The submission validator of AnswerService: the prefab must be active,
 * its groups must match the submission's sub-groups by position, name and
 * count, and every (field, question) pair must match by label and carry an
 * answer of the field's type that passes the field's rules. The first
 * failure aborts the whole check.
 */
module AnswerValidation {
  import opened Results
  import opened Values
  import opened Lexical
  import opened Forms
  import opened ValidationRules

  /** What a `ValidationException` reports. */
  datatype Reason =
    | Inactive
    | GroupCountMismatch
    | GroupNameMismatch(index: nat, prefabName: string, answerName: string)
    | FieldCountMismatch(index: nat)
    | FieldMismatch(fieldLabel: string, question: string)
    | EmptyAnswer(question: string)
    | NotAString(answer: Value)
    | NotANumber(answer: Value)
    | NotADate(answer: Value)
    | NotAGeolocation(answer: Value)
    | RuleBroken(violation: Violation)
    | InvalidQuery

  /** The exceptions the answer service raises or lets escape. */
  datatype Error =
    | UniqueResponse(prefabId: string, userId: string)
    | Validation(reason: Reason)
    | PrefabNotFound(prefabId: string)
    | ResourceNotFound
    | EntityNotFound(userId: string)
    | NotOwner(userId: string, prefabId: string)
    | Unchecked(crash: Crash)

  /**
   * Jackson's `ObjectMapper.readTree` on a string: the JSON tree it
   * builds, or `None` when the text is not JSON.
   */
  type JsonReader = string -> Option<Value>

  /** validateFieldAndQuestion */
  function ValidateFieldAndQuestion(fieldLabel: string, question: string): (o: Outcome<Error>)
    ensures o.Pass? <==> fieldLabel == question
    ensures o.Fail? ==> o.error == Validation(FieldMismatch(fieldLabel, question))
  {
    if fieldLabel == question then Pass else Fail(Validation(FieldMismatch(fieldLabel, question)))
  }

  /** A text `new BigDecimal` accepts starts with a sign, a digit or a point. */
  lemma BigDecimalStart(s: string)
    requires IsBigDecimal(s)
    ensures |s| > 0 && (s[0] == '+' || s[0] == '-' || s[0] == '.' || IsDigit(s[0]))
  {
    var u := Unsigned(s);
    var t := u[..ExponentStart(u)];
    var d := IndexOf(t, '.');
    assert |t| > 0;
    if d > 0 {
      assert t[..d][0] == t[0];
    }
    if !(s[0] == '+' || s[0] == '-') {
      assert u == s;
      assert t[0] == s[0];
    }
  }

  /** The answers whose `toString()` the NUMBER check can accept: decimal strings and numbers. */
  predicate IsNumeric(answer: Value)
  {
    (answer.Str? && IsBigDecimal(answer.s)) || (answer.Num? && IsBigDecimal(answer.text))
  }

  /**
   * validateNumericAnswer: `new BigDecimal(answer.toString())`. A list, a
   * map or a boolean never passes, because its text starts with `[`, `{`,
   * `t` or `f`; a null answer has no `toString` and escapes as a
   * `NullPointerException`, which the `catch` of `NumberFormatException`
   * does not handle.
   */
  function ValidateNumericAnswer(answer: Value): (o: Outcome<Error>)
    ensures o.Pass? <==> IsNumeric(answer)
    ensures answer == Null ==> o == Fail(Unchecked(NullPointer))
    ensures o.Fail? && answer != Null ==> o.error == Validation(NotANumber(answer))
  {
    if answer == Null then Fail(Unchecked(NullPointer))
    else if IsBigDecimal(ToText(answer)) then
      assert IsNumeric(answer) by {
        BigDecimalStart(ToText(answer));
        if answer.List? || answer.Obj? { ContainerTextBracket(answer); }
      }
      Pass
    else Fail(Validation(NotANumber(answer)))
  }

  /**
   * validateDateAnswer: the `(String)` cast happens outside the `try`, so a
   * non-string answer escapes as a `ClassCastException`; a string that is
   * not a `yyyy-MM-dd` date is a validation error.
   */
  function ValidateDateAnswer(answer: Value): (o: Outcome<Error>)
    ensures o.Pass? <==> answer.Str? && IsIsoDate(answer.s)
    ensures answer.Str? && !IsIsoDate(answer.s) ==> o == Fail(Validation(NotADate(answer)))
    ensures !answer.Str? && answer != Null ==> o == Fail(Unchecked(ClassCast))
  {
    match answer
    case Str(s) => if IsIsoDate(s) then Pass else Fail(Validation(NotADate(answer)))
    case Null => Fail(Unchecked(NullPointer))
    case _ => Fail(Unchecked(ClassCast))
  }

  /**
   * The JSON tree the geolocation check inspects: a string is parsed, any
   * other value is serialised and read back, which keeps a map's keys.
   */
  function GeoTree(answer: Value, readTree: JsonReader): Option<Value>
  {
    if answer.Str? then readTree(answer.s) else Some(answer)
  }

  /** A JSON object with both a `lat` and a `lng` key, whatever their values. */
  predicate HasCoordinates(tree: Option<Value>)
  {
    tree.Some? && tree.value.Obj? &&
    HasKey(tree.value.entries, "lat") && HasKey(tree.value.entries, "lng")
  }

  /**
   * validateGeolocationAnswer. `asDouble()` never throws, so the values
   * under `lat` and `lng` are not checked.
   */
  function ValidateGeolocationAnswer(answer: Value, readTree: JsonReader): (o: Outcome<Error>)
    ensures answer.Obj? ==>
      (o.Pass? <==> HasKey(answer.entries, "lat") && HasKey(answer.entries, "lng"))
    ensures answer.Str? ==> (o.Pass? <==> HasCoordinates(readTree(answer.s)))
    ensures answer.List? || answer.Num? || answer.Bool? || answer.Null? ==> o.Fail?
    ensures o.Fail? ==> o.error == Validation(NotAGeolocation(answer))
  {
    if HasCoordinates(GeoTree(answer, readTree)) then Pass
    else Fail(Validation(NotAGeolocation(answer)))
  }

  /** validateAnswerType: only TEXT, NUMBER, DATE and GEOLOCATION are checked. */
  function ValidateAnswerType(answer: Value, t: FieldType, readTree: JsonReader): (o: Outcome<Error>)
    ensures t == Text ==> (o.Pass? <==> answer.Str?)
    ensures t == Number ==> (o.Pass? <==> IsNumeric(answer))
    ensures t == Date ==> (o.Pass? <==> answer.Str? && IsIsoDate(answer.s))
    ensures t == Geolocation ==> (o.Pass? <==> HasCoordinates(GeoTree(answer, readTree)))
    ensures t == MultipleChoice ==> o.Pass?
    ensures o.Fail? && !o.error.Validation? ==> (t == Date && !answer.Str?) || (t == Number && answer == Null)
  {
    match t
    case Text => if answer.Str? then Pass else Fail(Validation(NotAString(answer)))
    case Number => ValidateNumericAnswer(answer)
    case Date => ValidateDateAnswer(answer)
    case Geolocation => ValidateGeolocationAnswer(answer, readTree)
    case MultipleChoice => Pass
  }

  /** A null answer or an empty JSON object counts as no answer. */
  predicate IsEmptyAnswer(answer: Value)
  {
    answer == Null || answer == Obj([])
  }

  /** A rule failure as the answer service reports it. */
  function ReRaise(f: RuleFailure): (e: Error)
    ensures f.Violated? ==> e == Validation(RuleBroken(f.violation))
    ensures f.Crashed? ==> e == Unchecked(f.crash)
  {
    match f
    case Violated(v) => Validation(RuleBroken(v))
    case Crashed(c) => Unchecked(c)
  }

  /**
   * checkAnswerField: label first, then the empty-answer rule, then the
   * type check, then the field's rules.
   */
  function CheckAnswerField(field: Field, q: AnswerQuestion, readTree: JsonReader): (o: Outcome<Error>)
    ensures field.fieldLabel != q.question ==>
      o == Fail(Validation(FieldMismatch(field.fieldLabel, q.question)))
    ensures field.fieldLabel == q.question && IsEmptyAnswer(q.answer) ==>
      (o.Pass? <==> field.optional) && (o.Fail? ==> o.error == Validation(EmptyAnswer(q.question)))
    ensures field.fieldLabel == q.question && !IsEmptyAnswer(q.answer) ==>
      var typed := ValidateAnswerType(q.answer, field.fieldType, readTree);
      var ruled := ValidateFieldsRules(field, q.answer);
      && (typed.Fail? ==> o == typed)
      && (typed.Pass? && ruled.Fail? ==> o == Fail(ReRaise(ruled.error)))
      && (o.Pass? <==> typed.Pass? && ruled.Pass?)
  {
    if field.fieldLabel != q.question then
      ValidateFieldAndQuestion(field.fieldLabel, q.question)
    else if IsEmptyAnswer(q.answer) then
      if field.optional then Pass else Fail(Validation(EmptyAnswer(q.question)))
    else
      match ValidateAnswerType(q.answer, field.fieldType, readTree)
      case Fail(e) => Fail(e)
      case Pass =>
        match ValidateFieldsRules(field, q.answer)
        case Pass => Pass
        case Fail(f) => Fail(ReRaise(f))
  }

  /** The loop of checkAnswerGroup over (field, question) pairs, from position `i` on. */
  function CheckFields(fields: seq<Field>, questions: seq<AnswerQuestion>, i: nat, readTree: JsonReader): (o: Outcome<Error>)
    requires |fields| == |questions| && i <= |fields|
    ensures o.Pass? <==>
      forall j :: i <= j < |fields| ==> CheckAnswerField(fields[j], questions[j], readTree).Pass?
    ensures o.Fail? ==>
      exists k :: i <= k < |fields| && o == CheckAnswerField(fields[k], questions[k], readTree) &&
        forall j :: i <= j < k ==> CheckAnswerField(fields[j], questions[j], readTree).Pass?
    decreases |fields| - i
  {
    if i == |fields| then Pass
    else
      var here := CheckAnswerField(fields[i], questions[i], readTree);
      if here.Fail? then here else CheckFields(fields, questions, i + 1, readTree)
  }

  /** checkAnswerGroup: the name, then the number of questions, then each pair in order. */
  function CheckAnswerGroup(g: Group, sub: AnswerSubGroup, index: nat, readTree: JsonReader): (o: Outcome<Error>)
    ensures g.name != sub.group ==>
      o == Fail(Validation(GroupNameMismatch(index, g.name, sub.group)))
    ensures g.name == sub.group && |g.fields| != |sub.questions| ==>
      o == Fail(Validation(FieldCountMismatch(index)))
    ensures o.Pass? <==>
      && g.name == sub.group
      && |g.fields| == |sub.questions|
      && forall j :: 0 <= j < |g.fields| ==> CheckAnswerField(g.fields[j], sub.questions[j], readTree).Pass?
  {
    if g.name != sub.group then Fail(Validation(GroupNameMismatch(index, g.name, sub.group)))
    else if |g.fields| != |sub.questions| then Fail(Validation(FieldCountMismatch(index)))
    else CheckFields(g.fields, sub.questions, 0, readTree)
  }

  /** The loop of checkFormPrefab over (group, sub-group) pairs, from position `i` on. */
  function CheckGroups(groups: seq<Group>, subs: seq<AnswerSubGroup>, i: nat, readTree: JsonReader): (o: Outcome<Error>)
    requires |groups| == |subs| && i <= |groups|
    ensures o.Pass? <==>
      forall j :: i <= j < |groups| ==> CheckAnswerGroup(groups[j], subs[j], j, readTree).Pass?
    ensures o.Fail? ==>
      exists k :: i <= k < |groups| && o == CheckAnswerGroup(groups[k], subs[k], k, readTree) &&
        forall j :: i <= j < k ==> CheckAnswerGroup(groups[j], subs[j], j, readTree).Pass?
    decreases |groups| - i
  {
    if i == |groups| then Pass
    else
      var here := CheckAnswerGroup(groups[i], subs[i], i, readTree);
      if here.Fail? then here else CheckGroups(groups, subs, i + 1, readTree)
  }

  /**
   * The submission has the prefab's shape: as many sub-groups as groups,
   * the same names and question counts position by position, and every
   * (field, question) pair accepted.
   */
  predicate Matches(p: Prefab, submission: AnswerGroup, readTree: JsonReader)
  {
    && |p.groups| == |submission.answers|
    && (forall i :: 0 <= i < |p.groups| ==>
          && p.groups[i].name == submission.answers[i].group
          && |p.groups[i].fields| == |submission.answers[i].questions|)
    && (forall i, j :: 0 <= i < |p.groups| && 0 <= j < |p.groups[i].fields| ==>
          CheckAnswerField(p.groups[i].fields[j], submission.answers[i].questions[j], readTree).Pass?)
  }

  /**
   * checkFormPrefab: the prefab lookup, then the active flag, then the
   * number of groups, then each group in order.
   */
  function CheckFormPrefab(prefabs: map<string, Prefab>, prefabId: string, submission: AnswerGroup,
                           readTree: JsonReader): (o: Outcome<Error>)
    ensures prefabId !in prefabs ==> o == Fail(PrefabNotFound(prefabId))
    ensures prefabId in prefabs && !prefabs[prefabId].isActive ==> o == Fail(Validation(Inactive))
    ensures prefabId in prefabs && prefabs[prefabId].isActive &&
      |prefabs[prefabId].groups| != |submission.answers|
      ==> o == Fail(Validation(GroupCountMismatch))
    ensures o.Pass? <==>
      prefabId in prefabs && prefabs[prefabId].isActive && Matches(prefabs[prefabId], submission, readTree)
  {
    if prefabId !in prefabs then Fail(PrefabNotFound(prefabId))
    else
      var p := prefabs[prefabId];
      if !p.isActive then Fail(Validation(Inactive))
      else if |p.groups| != |submission.answers| then Fail(Validation(GroupCountMismatch))
      else
        var o := CheckGroups(p.groups, submission.answers, 0, readTree);
        assert o.Pass? <==> Matches(p, submission, readTree) by {
          if o.Pass? {
            forall i, j | 0 <= i < |p.groups| && 0 <= j < |p.groups[i].fields|
              ensures CheckAnswerField(p.groups[i].fields[j], submission.answers[i].questions[j], readTree).Pass?
            {
              assert CheckAnswerGroup(p.groups[i], submission.answers[i], i, readTree).Pass?;
            }
          }
          if Matches(p, submission, readTree) {
            forall i | 0 <= i < |p.groups|
              ensures CheckAnswerGroup(p.groups[i], submission.answers[i], i, readTree).Pass?
            {
            }
          }
        }
        o
  }

  /** An accepted submission answers the prefab's fields by label, position by position. */
  lemma AcceptedAnswersEveryLabel(prefabs: map<string, Prefab>, prefabId: string, submission: AnswerGroup,
                                  readTree: JsonReader, i: nat, j: nat)
    requires CheckFormPrefab(prefabs, prefabId, submission, readTree).Pass?
    requires i < |submission.answers|
    requires j < |submission.answers[i].questions|
    ensures i < |prefabs[prefabId].groups| && j < |prefabs[prefabId].groups[i].fields|
    ensures submission.answers[i].group == prefabs[prefabId].groups[i].name
    ensures submission.answers[i].questions[j].question == prefabs[prefabId].groups[i].fields[j].fieldLabel
  {
    var p := prefabs[prefabId];
    assert CheckAnswerField(p.groups[i].fields[j], submission.answers[i].questions[j], readTree).Pass?;
  }

  /** NUMBER accepts "42", "42.5", "-3" and a JSON number; it rejects "abc", "" and a list. */
  lemma NumberExamples()
    ensures ValidateNumericAnswer(Str("42")).Pass?
    ensures ValidateNumericAnswer(Str("42.5")).Pass?
    ensures ValidateNumericAnswer(Str("-3")).Pass?
    ensures ValidateNumericAnswer(Num(Floating, "42.5")).Pass?
    ensures ValidateNumericAnswer(Str("abc")) == Fail(Validation(NotANumber(Str("abc"))))
    ensures ValidateNumericAnswer(Str("")).Fail?
    ensures ValidateNumericAnswer(List([Str("1")])).Fail?
  {
    NumberAccepted();
    NumberRejected();
  }

  /** The decimal texts of the NUMBER examples. */
  lemma NumberAccepted()
    ensures IsBigDecimal("42") && IsBigDecimal("-3") && IsBigDecimal("42.5")
  {
    DigitsAreBigDecimal("42");
    DigitsAreBigDecimal("3");
    assert "-" + "3" == "-3";
    FractionIsBigDecimal("42", "5");
    assert "42" + "." + "5" == "42.5";
  }

  /** Texts that cannot start a decimal. */
  lemma NumberRejected()
    ensures !IsBigDecimal("abc") && !IsBigDecimal("")
  {
    if IsBigDecimal("abc") { BigDecimalStart("abc"); }
    if IsBigDecimal("") { BigDecimalStart(""); }
  }

  /** DATE accepts "2024-01-15"; it rejects "2024/01/15", "15-01-2024" and "2024-1-15". */
  lemma DateExamples()
    ensures ValidateDateAnswer(Str("2024-01-15")).Pass?
    ensures ValidateDateAnswer(Str("2024/01/15")) == Fail(Validation(NotADate(Str("2024/01/15"))))
    ensures ValidateDateAnswer(Str("15-01-2024")) == Fail(Validation(NotADate(Str("15-01-2024"))))
    ensures ValidateDateAnswer(Str("2024-1-15")) == Fail(Validation(NotADate(Str("2024-1-15"))))
    ensures ValidateDateAnswer(Num(Integral, "20240115")) == Fail(Unchecked(ClassCast))
  {
    var s := "2024-01-15";
    assert s[..4] == "2024" && s[4..] == "-01-15";
    assert "-01-15"[1..3] == "01" && "-01-15"[4..] == "15";
    assert DigitsValue("2024") == 2024 by {
      assert "2024"[..3] == "202" && "202"[..2] == "20" && "20"[..1] == "2" && "2"[..0] == "";
    }
    assert DigitsValue("01") == 1 by { assert "01"[..1] == "0" && "0"[..0] == ""; }
    assert DigitsValue("15") == 15 by { assert "15"[..1] == "1" && "1"[..0] == ""; }
    assert "2024/01/15"[4..] == "/01/15";
    assert "15-01-2024"[4..] == "1-2024";
    assert "2024-1-15"[3..] == "4-1-15";
  }

  /**
   * GEOLOCATION accepts an object with `lat` and `lng` and rejects one
   * without `lng`; it also accepts a non-numeric `lat`, which is not
   * checked.
   */
  lemma GeolocationExamples(readTree: JsonReader)
    ensures ValidateGeolocationAnswer(
      Obj([("lat", Num(Floating, "45.5")), ("lng", Num(Floating, "-73.5"))]), readTree).Pass?
    ensures ValidateGeolocationAnswer(Obj([("lat", Num(Floating, "45.5"))]), readTree).Fail?
    ensures ValidateGeolocationAnswer(Obj([("lat", Str("x")), ("lng", Num(Integral, "1"))]), readTree).Pass?
  {
    var good := [("lat", Num(Floating, "45.5")), ("lng", Num(Floating, "-73.5"))];
    assert good[0].0 == "lat" && good[1].0 == "lng";
    var odd := [("lat", Str("x")), ("lng", Num(Integral, "1"))];
    assert odd[0].0 == "lat" && odd[1].0 == "lng";
    var half := [("lat", Num(Floating, "45.5"))];
    assert !HasKey(half, "lng") by {
      forall i | 0 <= i < |half| ensures half[i].0 != "lng" {
        assert half[i].0 == "lat";
        assert "lat"[1] != "lng"[1];
      }
    }
  }

  /** A prefab "p" with one group "G" holding one optional NUMBER field "Age". */
  const AgeField := Field("Age", Number, true, None, [])
  const AgePrefabs := map["p" := Prefab("p", true, [Group("G", [AgeField])])]

  /** A guest submission answering "Age" with `a`. */
  function AgeSubmission(a: Value): AnswerGroup
  {
    AnswerGroup("", "", GUEST, "", None, [AnswerSubGroup("G", [AnswerQuestion("Age", None, a, None)])])
  }

  /** The optional "Age" field: null is accepted, "not-a-number" is rejected as not a number. */
  lemma OptionalNumberExample(readTree: JsonReader)
    ensures CheckFormPrefab(AgePrefabs, "p", AgeSubmission(Null), readTree).Pass?
    ensures CheckFormPrefab(AgePrefabs, "p", AgeSubmission(Str("not-a-number")), readTree)
      == Fail(Validation(NotANumber(Str("not-a-number"))))
  {
    var g := Group("G", [AgeField]);
    var bad := Str("not-a-number");
    if IsBigDecimal("not-a-number") { BigDecimalStart("not-a-number"); }
    var fNull := CheckAnswerField(AgeField, AnswerQuestion("Age", None, Null, None), readTree);
    var fBad := CheckAnswerField(AgeField, AnswerQuestion("Age", None, bad, None), readTree);
    assert fNull == Pass;
    assert fBad == Fail(Validation(NotANumber(bad)));
    var subNull := AgeSubmission(Null).answers;
    var subBad := AgeSubmission(bad).answers;
    assert CheckFields(g.fields, subNull[0].questions, 0, readTree) == Pass;
    assert CheckFields(g.fields, subBad[0].questions, 0, readTree) == fBad;
    assert CheckGroups([g], subNull, 0, readTree) == Pass;
    assert CheckGroups([g], subBad, 0, readTree) == fBad;
  }
}
