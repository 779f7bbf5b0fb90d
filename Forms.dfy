/**
 * The form schema (a prefab of named groups of typed fields) and the
 * submission (an answer group of sub-groups of answered questions).
 * Identifiers, timestamps and display names are kept as strings.
 */
module Forms {
  import opened Results
  import opened Values

  /** The literal user identity of anonymous submissions. */
  const GUEST: string := "guest"

  datatype FieldType = Text | Number | Date | Geolocation | MultipleChoice

  datatype RuleType = MaxLength | IsMultipleChoice | IsRadio

  /** A validation rule of a field with its optional parameter text. */
  datatype Rule = Rule(ruleType: RuleType, value: string)

  /**
   * A schema leaf. `options` are the choices of a multiple-choice field;
   * `None` is a field stored without options.
   */
  datatype Field = Field(
    fieldLabel: string,
    fieldType: FieldType,
    optional: bool,
    options: Option<seq<string>>,
    rules: seq<Rule>)

  datatype Group = Group(name: string, fields: seq<Field>)

  datatype Prefab = Prefab(id: string, isActive: bool, groups: seq<Group>)

  /**
   * One answer leaf. `qtype` and `choices` are whatever was stored (a
   * submission usually leaves them null) until the read-side annotation
   * overwrites them.
   */
  datatype AnswerQuestion = AnswerQuestion(
    question: string,
    qtype: Option<FieldType>,
    answer: Value,
    choices: Option<seq<string>>)

  datatype AnswerSubGroup = AnswerSubGroup(group: string, questions: seq<AnswerQuestion>)

  /** Display identity attached to a submission when it is read. */
  datatype AnswerUser = AnswerUser(name: string, email: string)

  /** A submission; `user` is null until a read attaches it. */
  datatype AnswerGroup = AnswerGroup(
    id: string,
    prefabId: string,
    userId: string,
    createdAt: string,
    user: Option<AnswerUser>,
    answers: seq<AnswerSubGroup>)

  /** An account of the user directory. */
  datatype User = User(id: string, firstName: string, lastName: string, email: string)

  /** Whether any of the field's rules has the given type. */
  predicate HasRule(field: Field, t: RuleType)
  {
    exists i :: 0 <= i < |field.rules| && field.rules[i].ruleType == t
  }
}
