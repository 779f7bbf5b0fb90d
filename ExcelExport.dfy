/**
 * The layout logic of ExcelExportService: one sheet per field of the
 * prefab, named after the field's label made safe for Excel, holding a
 * header row and one numbered data row per submission that answers the
 * field.
 */
module ExcelExport {
  import opened Results
  import opened Values
  import opened Forms

  /** Excel's limit on the length of a sheet name. */
  const MAX_SHEET_NAME: nat := 31

  /** The row of the column captions; data rows follow it. */
  const DATA_START_ROW: nat := 8

  const HEADER: seq<string> := ["User Name", "User Email", "Submission Date", "Answer"]

  /** The characters Excel refuses in a sheet name: `\ / ? * [ ] :`. */
  predicate Forbidden(c: char)
  {
    c == '\\' || c == '/' || c == '?' || c == '*' || c == '[' || c == ']' || c == ':'
  }

  /** The `replaceAll` of sanitizeSheetName: every forbidden character becomes `_`. */
  function ReplaceForbidden(s: string): (r: string)
    ensures |r| == |s|
    ensures forall i :: 0 <= i < |s| ==> r[i] == if Forbidden(s[i]) then '_' else s[i]
  {
    if s == [] then []
    else [if Forbidden(s[0]) then '_' else s[0]] + ReplaceForbidden(s[1..])
  }

  /**
   * sanitizeSheetName: the replaced name cut to at most 31 characters
   * (the cut uses the length of the original name, which is the same).
   */
  function SanitizeSheetName(name: string): (r: string)
    ensures |r| == if |name| < MAX_SHEET_NAME then |name| else MAX_SHEET_NAME
    ensures forall i :: 0 <= i < |r| ==> r[i] == if Forbidden(name[i]) then '_' else name[i]
    ensures forall i :: 0 <= i < |r| ==> !Forbidden(r[i])
  {
    var end := if |name| < MAX_SHEET_NAME then |name| else MAX_SHEET_NAME;
    ReplaceForbidden(name)[..end]
  }

  /** A sanitized name is left as it is by a second sanitizing. */
  lemma SanitizeIdempotent(name: string)
    ensures SanitizeSheetName(SanitizeSheetName(name)) == SanitizeSheetName(name)
  {
    var once := SanitizeSheetName(name);
    var twice := SanitizeSheetName(once);
    assert |twice| == |once|;
    forall i | 0 <= i < |once|
      ensures twice[i] == once[i]
    {
    }
  }

  /** The answers of the questions labelled `fieldLabel`, in order. */
  function LabelAnswers(qs: seq<AnswerQuestion>, fieldLabel: string): (r: seq<Value>)
    ensures |r| <= |qs|
  {
    if qs == [] then []
    else (if qs[0].question == fieldLabel then [qs[0].answer] else []) + LabelAnswers(qs[1..], fieldLabel)
  }

  /**
   * A sub-group contributes nothing iff none of its questions carries the
   * label, and each answer it contributes is that of a labelled question.
   */
  lemma {:induction false} LabelAnswersOfLabel(qs: seq<AnswerQuestion>, fieldLabel: string)
    ensures LabelAnswers(qs, fieldLabel) == [] <==> forall i :: 0 <= i < |qs| ==> qs[i].question != fieldLabel
    ensures forall k :: 0 <= k < |LabelAnswers(qs, fieldLabel)| ==>
      exists i :: 0 <= i < |qs| && qs[i].question == fieldLabel && LabelAnswers(qs, fieldLabel)[k] == qs[i].answer
  {
    if qs != [] {
      LabelAnswersOfLabel(qs[1..], fieldLabel);
      assert forall i :: 1 <= i < |qs| ==> qs[i] == qs[1..][i - 1];
    }
  }

  /**
   * The stream of findFieldAnswer: the sub-groups named `groupName`, their
   * questions flattened, those labelled `fieldLabel`, mapped to their answers.
   */
  function MatchingAnswers(subs: seq<AnswerSubGroup>, groupName: string, fieldLabel: string): seq<Value>
  {
    if subs == [] then []
    else
      (if subs[0].group == groupName then LabelAnswers(subs[0].questions, fieldLabel) else []) +
      MatchingAnswers(subs[1..], groupName, fieldLabel)
  }

  /**
   * findFieldAnswer: the first element of the stream, or null when it is
   * empty; `findFirst` throws when that first element is null.
   */
  function FindFieldAnswer(g: AnswerGroup, groupName: string, fieldLabel: string): (r: Result<Option<Value>, Crash>)
    ensures var s := MatchingAnswers(g.answers, groupName, fieldLabel);
      && (r == Ok(None) <==> s == [])
      && (r.Err? <==> s != [] && s[0] == Null)
      && (r.Err? ==> r.error == NullPointer)
      && (r.Ok? && r.value.Some? ==> r.value.value == s[0] && s[0] != Null)
  {
    var stream := MatchingAnswers(g.answers, groupName, fieldLabel);
    if stream == [] then Ok(None)
    else if stream[0] == Null then Err(NullPointer)
    else Ok(Some(stream[0]))
  }

  /** Question j of sub-group i is a question `fieldLabel` of a sub-group `groupName`. */
  predicate MatchAt(subs: seq<AnswerSubGroup>, groupName: string, fieldLabel: string, i: int, j: int)
  {
    0 <= i < |subs| && subs[i].group == groupName &&
    0 <= j < |subs[i].questions| && subs[i].questions[j].question == fieldLabel
  }

  /** The question labelled `fieldLabel` first in order has position j. */
  lemma {:induction false} FirstLabelAnswer(qs: seq<AnswerQuestion>, fieldLabel: string)
    ensures LabelAnswers(qs, fieldLabel) != [] <==> exists j :: 0 <= j < |qs| && qs[j].question == fieldLabel
    ensures LabelAnswers(qs, fieldLabel) != [] ==>
      exists j :: 0 <= j < |qs| && qs[j].question == fieldLabel && LabelAnswers(qs, fieldLabel)[0] == qs[j].answer &&
        forall j' :: 0 <= j' < j ==> qs[j'].question != fieldLabel
  {
    if qs != [] {
      FirstLabelAnswer(qs[1..], fieldLabel);
      if qs[0].question != fieldLabel {
        if exists j :: 0 <= j < |qs| && qs[j].question == fieldLabel {
          var j :| 0 <= j < |qs| && qs[j].question == fieldLabel;
          assert qs[1..][j - 1] == qs[j];
        }
        if LabelAnswers(qs, fieldLabel) != [] {
          var j :| 0 <= j < |qs[1..]| && qs[1..][j].question == fieldLabel &&
            LabelAnswers(qs[1..], fieldLabel)[0] == qs[1..][j].answer &&
            forall j' :: 0 <= j' < j ==> qs[1..][j'].question != fieldLabel;
          assert qs[j + 1] == qs[1..][j];
          forall j' | 0 <= j' < j + 1
            ensures qs[j'].question != fieldLabel
          {
            if j' > 0 { assert qs[j'] == qs[1..][j' - 1]; }
          }
        }
      }
    }
  }

  /**
   * findFieldAnswer scans the sub-groups, then their questions, in order:
   * it finds nothing iff no question matches, and otherwise looks at the
   * answer of the first match in that order.
   */
  lemma {:induction false} FirstMatch(subs: seq<AnswerSubGroup>, groupName: string, fieldLabel: string)
    ensures MatchingAnswers(subs, groupName, fieldLabel) != [] <==>
      exists i, j :: MatchAt(subs, groupName, fieldLabel, i, j)
    ensures MatchingAnswers(subs, groupName, fieldLabel) != [] ==>
      exists i, j ::
        && MatchAt(subs, groupName, fieldLabel, i, j)
        && MatchingAnswers(subs, groupName, fieldLabel)[0] == subs[i].questions[j].answer
        && forall i', j' :: MatchAt(subs, groupName, fieldLabel, i', j') ==> i < i' || (i == i' && j <= j')
  {
    if subs != [] {
      var rest := subs[1..];
      FirstMatch(rest, groupName, fieldLabel);
      FirstLabelAnswer(subs[0].questions, fieldLabel);
      var here := if subs[0].group == groupName then LabelAnswers(subs[0].questions, fieldLabel) else [];
      assert MatchingAnswers(subs, groupName, fieldLabel) == here + MatchingAnswers(rest, groupName, fieldLabel);
      forall i, j | MatchAt(rest, groupName, fieldLabel, i, j)
        ensures MatchAt(subs, groupName, fieldLabel, i + 1, j)
      {
        assert subs[i + 1] == rest[i];
      }
      if here != [] {
        var j :| 0 <= j < |subs[0].questions| && subs[0].questions[j].question == fieldLabel &&
          here[0] == subs[0].questions[j].answer &&
          forall j' :: 0 <= j' < j ==> subs[0].questions[j'].question != fieldLabel;
        assert MatchAt(subs, groupName, fieldLabel, 0, j);
      } else {
        forall i, j | MatchAt(subs, groupName, fieldLabel, i, j)
          ensures i > 0 && MatchAt(rest, groupName, fieldLabel, i - 1, j)
        {
          assert rest[i - 1] == subs[i];
        }
        if MatchingAnswers(rest, groupName, fieldLabel) != [] {
          var i, j :|
            && MatchAt(rest, groupName, fieldLabel, i, j)
            && MatchingAnswers(rest, groupName, fieldLabel)[0] == rest[i].questions[j].answer
            && forall i', j' :: MatchAt(rest, groupName, fieldLabel, i', j') ==> i < i' || (i == i' && j <= j');
          assert MatchAt(subs, groupName, fieldLabel, i + 1, j);
        }
      }
    }
  }

  /**
   * findFieldAnswer returns the answer of the first question labelled
   * `fieldLabel` in a sub-group named `groupName`, in sub-group then
   * question order; nothing when there is no such question; and a
   * `NullPointerException` when that first answer is null.
   */
  lemma FindFieldAnswerIsFirstMatch(g: AnswerGroup, groupName: string, fieldLabel: string)
    ensures FindFieldAnswer(g, groupName, fieldLabel) == Ok(None) <==>
      !exists i, j :: MatchAt(g.answers, groupName, fieldLabel, i, j)
    ensures FindFieldAnswer(g, groupName, fieldLabel) != Ok(None) ==>
      exists i, j ::
        && MatchAt(g.answers, groupName, fieldLabel, i, j)
        && (forall i', j' :: MatchAt(g.answers, groupName, fieldLabel, i', j') ==> i < i' || (i == i' && j <= j'))
        && var first := g.answers[i].questions[j].answer;
           FindFieldAnswer(g, groupName, fieldLabel) ==
             (if first == Null then Err(NullPointer) else Ok(Some(first)))
  {
    FirstMatch(g.answers, groupName, fieldLabel);
  }

  /** The content of the answer cell: text, or a number left to `Double` conversion. */
  datatype Cell = TextCell(text: string) | NumberCell(value: Value)

  /** `Object::toString` over the elements of a list; a null element is a `NullPointerException`. */
  function ElementTexts(items: seq<Value>): (r: Result<seq<string>, Crash>)
    ensures r.Ok? <==> forall k :: 0 <= k < |items| ==> items[k] != Null
    ensures r.Ok? ==> |r.value| == |items| && forall k :: 0 <= k < |items| ==> r.value[k] == ToText(items[k])
    ensures r.Err? ==> r.error == NullPointer
  {
    if items == [] then Ok([])
    else if items[0] == Null then Err(NullPointer)
    else
      match ElementTexts(items[1..])
      case Err(e) => Err(e)
      case Ok(rest) =>
        assert forall k :: 1 <= k < |items| ==> items[k] == items[1..][k - 1];
        Ok([ToText(items[0])] + rest)
  }

  /**
   * setCellValue: null is the empty text; a NUMBER value is a numeric
   * cell; a multiple-choice list is its elements' texts joined by ", ";
   * anything else is its `toString`.
   */
  function CellFor(value: Value, t: FieldType): (r: Result<Cell, Crash>)
    ensures value == Null ==> r == Ok(TextCell(""))
    ensures value != Null && t == Number ==> r == Ok(NumberCell(value))
    ensures value != Null && t == MultipleChoice && value.List? ==>
      match ElementTexts(value.items)
      case Ok(texts) => r == Ok(TextCell(Join(", ", texts)))
      case Err(e) => r == Err(e)
    ensures value != Null && t != Number && !(t == MultipleChoice && value.List?) ==>
      r == Ok(TextCell(ToText(value)))
  {
    if value == Null then Ok(TextCell(""))
    else
      match t
      case Number => Ok(NumberCell(value))
      case MultipleChoice =>
        if value.List? then
          match ElementTexts(value.items)
          case Err(e) => Err(e)
          case Ok(texts) => Ok(TextCell(Join(", ", texts)))
        else Ok(TextCell(ToText(value)))
      case _ => Ok(TextCell(ToText(value)))
  }

  /** The choices of a multiple-choice answer are shown joined by ", "; null is shown as nothing. */
  lemma CellExamples()
    ensures CellFor(List([Str("Option1"), Str("Option2")]), MultipleChoice) == Ok(TextCell("Option1, Option2"))
    ensures CellFor(List([Str("A")]), MultipleChoice) == Ok(TextCell("A"))
    ensures CellFor(List([]), MultipleChoice) == Ok(TextCell(""))
    ensures CellFor(List([Str("A"), Null]), MultipleChoice) == Err(NullPointer)
    ensures CellFor(Str("Test Answer"), Text) == Ok(TextCell("Test Answer"))
    ensures CellFor(Null, MultipleChoice) == Ok(TextCell(""))
  {
    var items := [Str("Option1"), Str("Option2")];
    var texts := ElementTexts(items).value;
    assert texts == ["Option1", "Option2"];
    assert texts[1..] == ["Option2"];
    assert Join(", ", texts[1..]) == "Option2";
    assert Join(", ", texts) == "Option1" + ", " + "Option2";
    assert "Option1" + ", " + "Option2" == "Option1, Option2";
    assert CellFor(List(items), MultipleChoice) == Ok(TextCell(Join(", ", texts)));
    assert ElementTexts([Str("A")]).value == ["A"];
    assert [Str("A"), Null][1] == Null;
  }

  /** One data row: the submitter's display name and email, the submission time and the answer cell. */
  datatype DataRow = DataRow(rowNum: nat, userName: string, userEmail: string, submitted: string, answer: Cell)

  /** The cells of a data row; a submission without a display user is a `NullPointerException`. */
  function RowFor(g: AnswerGroup, value: Value, rowNum: nat, t: FieldType): (r: Result<DataRow, Crash>)
    ensures g.user.None? ==> r == Err(NullPointer)
    ensures g.user.Some? ==> (r.Ok? <==> CellFor(value, t).Ok?)
    ensures r.Ok? ==>
      && r.value.rowNum == rowNum
      && r.value.userName == g.user.value.name
      && r.value.userEmail == (if g.user.value.email == "" then "N/A" else g.user.value.email)
      && r.value.submitted == g.createdAt
      && r.value.answer == CellFor(value, t).value
  {
    match g.user
    case None => Err(NullPointer)
    case Some(u) =>
      match CellFor(value, t)
      case Err(e) => Err(e)
      case Ok(cell) => Ok(DataRow(rowNum, u.name, if u.email == "" then "N/A" else u.email, g.createdAt, cell))
  }

  /**
   * The data rows of a field's sheet for the submissions so far: a row
   * for each submission that answers the field, numbered on from the row
   * after the header.
   */
  function DataRows(answers: seq<AnswerGroup>, group: Group, field: Field): Result<seq<DataRow>, Crash>
    decreases |answers|
  {
    if answers == [] then Ok([])
    else
      var last := answers[|answers| - 1];
      match DataRows(answers[..|answers| - 1], group, field)
      case Err(e) => Err(e)
      case Ok(rows) =>
        match FindFieldAnswer(last, group.name, field.fieldLabel)
        case Err(e) => Err(e)
        case Ok(None) => Ok(rows)
        case Ok(Some(v)) =>
          match RowFor(last, v, DATA_START_ROW + 1 + |rows|, field.fieldType)
          case Err(e) => Err(e)
          case Ok(row) => Ok(rows + [row])
  }

  /** A crash for a prefix of the submissions is the crash of the whole sheet. */
  lemma {:induction false} RowsCrashPersists(answers: seq<AnswerGroup>, group: Group, field: Field, k: nat)
    requires k <= |answers| && DataRows(answers[..k], group, field).Err?
    ensures DataRows(answers, group, field) == DataRows(answers[..k], group, field)
    decreases |answers| - k
  {
    if k < |answers| {
      assert answers[..k + 1][..k] == answers[..k];
      RowsCrashPersists(answers, group, field, k + 1);
    } else {
      assert answers[..k] == answers;
    }
  }

  /** Submission g answers the field: its answer is found and is present. */
  predicate Answers(g: AnswerGroup, group: Group, field: Field)
  {
    FindFieldAnswer(g, group.name, field.fieldLabel).Ok? &&
    FindFieldAnswer(g, group.name, field.fieldLabel).value.Some?
  }

  /** The row submission g shows at row number rowNum, given that it answers the field. */
  function RowOf(g: AnswerGroup, group: Group, field: Field, rowNum: nat): Result<DataRow, Crash>
    requires Answers(g, group, field)
  {
    RowFor(g, FindFieldAnswer(g, group.name, field.fieldLabel).value.value, rowNum, field.fieldType)
  }

  /**
   * `idx[k]` is the position of the submission that row k shows: the rows
   * are numbered on from DATA_START_ROW + 1, each shows the field's answer
   * of an answering submission, the positions strictly increase, and every
   * answering submission has a row.
   */
  predicate RowsLaidOut(answers: seq<AnswerGroup>, group: Group, field: Field, rows: seq<DataRow>, idx: seq<nat>)
  {
    && |idx| == |rows|
    && (forall k :: 0 <= k < |idx| ==> idx[k] < |answers| && Answers(answers[idx[k]], group, field))
    && (forall k :: 0 <= k < |rows| ==> rows[k].rowNum == DATA_START_ROW + 1 + k)
    && (forall k :: 0 <= k < |idx| ==>
          idx[k] < |answers| && Answers(answers[idx[k]], group, field) && k < |rows| &&
          Ok(rows[k]) == RowOf(answers[idx[k]], group, field, DATA_START_ROW + 1 + k))
    && (forall k, l :: 0 <= k < l < |idx| ==> idx[k] < idx[l])
    && (forall i :: 0 <= i < |answers| && Answers(answers[i], group, field) ==> i in idx)
  }

  /** The layout of the rows extends by one submission that does not answer the field. */
  lemma RowsLaidOutSkip(answers: seq<AnswerGroup>, group: Group, field: Field, rows: seq<DataRow>, idx: seq<nat>)
    requires |answers| > 0
    requires RowsLaidOut(answers[..|answers| - 1], group, field, rows, idx)
    requires !Answers(answers[|answers| - 1], group, field)
    ensures RowsLaidOut(answers, group, field, rows, idx)
  {
    var n := |answers| - 1;
    assert forall i :: 0 <= i < n ==> answers[..n][i] == answers[i];
  }

  /** The layout of the rows extends by one submission that answers the field. */
  lemma RowsLaidOutAppend(answers: seq<AnswerGroup>, group: Group, field: Field, rows: seq<DataRow>,
                          idx: seq<nat>, row: DataRow)
    requires |answers| > 0
    requires RowsLaidOut(answers[..|answers| - 1], group, field, rows, idx)
    requires Answers(answers[|answers| - 1], group, field)
    requires RowOf(answers[|answers| - 1], group, field, DATA_START_ROW + 1 + |rows|) == Ok(row)
    ensures RowsLaidOut(answers, group, field, rows + [row], idx + [|answers| - 1])
  {
    var n := |answers| - 1;
    assert forall i :: 0 <= i < n ==> answers[..n][i] == answers[i];
    assert row.rowNum == DATA_START_ROW + 1 + |rows|;
  }

  /**
   * Data row k is numbered DATA_START_ROW + 1 + k and is the row of the
   * k-th submission that answers the field, in submission order.
   */
  lemma {:induction false} DataRowsLayout(answers: seq<AnswerGroup>, group: Group, field: Field)
    requires DataRows(answers, group, field).Ok?
    ensures exists idx :: RowsLaidOut(answers, group, field, DataRows(answers, group, field).value, idx)
    decreases |answers|
  {
    if answers == [] {
      assert RowsLaidOut(answers, group, field, [], []);
    } else {
      var n := |answers| - 1;
      var last := answers[n];
      assert DataRows(answers[..n], group, field).Ok?;
      DataRowsLayout(answers[..n], group, field);
      var rows0 := DataRows(answers[..n], group, field).value;
      var idx0 :| RowsLaidOut(answers[..n], group, field, rows0, idx0);
      if Answers(last, group, field) {
        var row := RowOf(last, group, field, DATA_START_ROW + 1 + |rows0|).value;
        assert DataRows(answers, group, field).value == rows0 + [row];
        RowsLaidOutAppend(answers, group, field, rows0, idx0, row);
      } else {
        assert DataRows(answers, group, field).value == rows0;
        RowsLaidOutSkip(answers, group, field, rows0, idx0);
      }
    }
  }

  /** A field's sheet: its name, the header row with its captions, and the data rows. */
  datatype Sheet = Sheet(name: string, headerRow: nat, header: seq<string>, rows: seq<DataRow>)

  /** The sheet populateFieldSheet fills for one field. */
  function FieldSheet(name: string, group: Group, field: Field, answers: seq<AnswerGroup>): Result<Sheet, Crash>
  {
    match DataRows(answers, group, field)
    case Err(e) => Err(e)
    case Ok(rows) => Ok(Sheet(name, DATA_START_ROW, HEADER, rows))
  }

  /**
   * populateFieldSheet: the header row, then one row per answering
   * submission, with the counter `rowNum` starting after the header.
   */
  method PopulateFieldSheet(name: string, group: Group, field: Field, answers: seq<AnswerGroup>)
    returns (r: Result<Sheet, Crash>)
    ensures r == FieldSheet(name, group, field, answers)
  {
    var rows: seq<DataRow> := [];
    var rowNum := DATA_START_ROW + 1;
    var i := 0;
    while i < |answers|
      invariant i <= |answers|
      invariant DataRows(answers[..i], group, field) == Ok(rows)
      invariant rowNum == DATA_START_ROW + 1 + |rows|
    {
      var answer := answers[i];
      assert answers[..i + 1][..i] == answers[..i];
      var fieldAnswer := FindFieldAnswer(answer, group.name, field.fieldLabel);
      if fieldAnswer.Err? {
        r := Err(fieldAnswer.error);
        RowsCrashPersists(answers, group, field, i + 1);
        return;
      }
      if fieldAnswer.value.Some? {
        var row := RowFor(answer, fieldAnswer.value.value, rowNum, field.fieldType);
        if row.Err? {
          r := Err(row.error);
          RowsCrashPersists(answers, group, field, i + 1);
          return;
        }
        rows := rows + [row.value];
        rowNum := rowNum + 1;
      }
      i := i + 1;
    }
    assert answers[..i] == answers;
    r := Ok(Sheet(name, DATA_START_ROW, HEADER, rows));
  }

  /** The fields of the prefab in group order, then field order. */
  function AllFields(groups: seq<Group>): seq<Field>
    decreases |groups|
  {
    if groups == [] then [] else AllFields(groups[..|groups| - 1]) + groups[|groups| - 1].fields
  }

  /** The sheets made for the fields of one group, in field order. */
  function GroupSheets(group: Group, fields: seq<Field>, answers: seq<AnswerGroup>): Result<seq<Sheet>, Crash>
    decreases |fields|
  {
    if fields == [] then Ok([])
    else
      var field := fields[|fields| - 1];
      match GroupSheets(group, fields[..|fields| - 1], answers)
      case Err(e) => Err(e)
      case Ok(sheets) =>
        match FieldSheet(SanitizeSheetName(field.fieldLabel), group, field, answers)
        case Err(e) => Err(e)
        case Ok(sheet) => Ok(sheets + [sheet])
  }

  /** The workbook of generateExcelForPrefab: the sheets of every group, in group order. */
  function Workbook(groups: seq<Group>, answers: seq<AnswerGroup>): Result<seq<Sheet>, Crash>
    decreases |groups|
  {
    if groups == [] then Ok([])
    else
      var group := groups[|groups| - 1];
      match Workbook(groups[..|groups| - 1], answers)
      case Err(e) => Err(e)
      case Ok(sheets) =>
        match GroupSheets(group, group.fields, answers)
        case Err(e) => Err(e)
        case Ok(more) => Ok(sheets + more)
  }

  /** The sheets of one group are named after its fields, in order. */
  lemma {:induction false} GroupSheetNames(group: Group, fields: seq<Field>, answers: seq<AnswerGroup>)
    requires GroupSheets(group, fields, answers).Ok?
    ensures var sheets := GroupSheets(group, fields, answers).value;
      |sheets| == |fields| &&
      forall k :: 0 <= k < |fields| ==> sheets[k].name == SanitizeSheetName(fields[k].fieldLabel)
    decreases |fields|
  {
    if fields != [] {
      var n := |fields| - 1;
      GroupSheetNames(group, fields[..n], answers);
      assert forall k :: 0 <= k < n ==> fields[..n][k] == fields[k];
    }
  }

  /**
   * There is one sheet per field, in group order then field order, named
   * by the field's sanitized fieldLabel.
   */
  lemma {:induction false} SheetPerField(groups: seq<Group>, answers: seq<AnswerGroup>)
    requires Workbook(groups, answers).Ok?
    ensures var sheets := Workbook(groups, answers).value;
      |sheets| == |AllFields(groups)| &&
      forall k :: 0 <= k < |sheets| ==> sheets[k].name == SanitizeSheetName(AllFields(groups)[k].fieldLabel)
    decreases |groups|
  {
    if groups != [] {
      var n := |groups| - 1;
      var group := groups[n];
      SheetPerField(groups[..n], answers);
      GroupSheetNames(group, group.fields, answers);
      var before := Workbook(groups[..n], answers).value;
      var more := GroupSheets(group, group.fields, answers).value;
      var fields := AllFields(groups);
      assert fields == AllFields(groups[..n]) + group.fields;
      var sheets: seq<Sheet> := before + more;
      forall k | |before| <= k < |sheets|
        ensures sheets[k].name == SanitizeSheetName(fields[k].fieldLabel)
      {
        assert fields[k] == group.fields[k - |before|];
      }
    }
  }

  /** A group of three fields gives a workbook of three sheets, one per field in order. */
  lemma ThreeFieldsThreeSheets(a: Field, b: Field, c: Field, answers: seq<AnswerGroup>)
    requires Workbook([Group("Test Group", [a, b, c])], answers).Ok?
    ensures var sheets := Workbook([Group("Test Group", [a, b, c])], answers).value;
      && |sheets| == 3
      && sheets[0].name == SanitizeSheetName(a.fieldLabel)
      && sheets[1].name == SanitizeSheetName(b.fieldLabel)
      && sheets[2].name == SanitizeSheetName(c.fieldLabel)
  {
    var groups := [Group("Test Group", [a, b, c])];
    SheetPerField(groups, answers);
    assert groups[..0] == [];
    assert AllFields(groups) == [a, b, c];
  }

  const TestField := Field("Test Field", Text, false, None, [])
  const TestGroup := Group("Test Group", [TestField])

  /** A submission answering "Test Field" with "Test Answer", shown as "Test User". */
  function TestAnswer(createdAt: string): AnswerGroup
  {
    AnswerGroup("", "", "", createdAt, Some(AnswerUser("Test User", "test@example.com")),
      [AnswerSubGroup("Test Group", [AnswerQuestion("Test Field", None, Str("Test Answer"), None)])])
  }

  /** The test submission gives one data row, numbered 9. */
  lemma TestAnswerRows(createdAt: string)
    ensures DataRows([TestAnswer(createdAt)], TestGroup, TestField) ==
      Ok([DataRow(9, "Test User", "test@example.com", createdAt, TextCell("Test Answer"))])
  {
    var g := TestAnswer(createdAt);
    var sub := g.answers[0];
    assert LabelAnswers(sub.questions, "Test Field") == [Str("Test Answer")] by {
      assert sub.questions[1..] == [];
    }
    assert MatchingAnswers(g.answers, "Test Group", "Test Field") == [Str("Test Answer")] by {
      assert g.answers[1..] == [];
    }
    var row := DataRow(9, "Test User", "test@example.com", createdAt, TextCell("Test Answer"));
    assert CellFor(Str("Test Answer"), Text) == Ok(TextCell("Test Answer"));
    assert RowFor(g, Str("Test Answer"), DATA_START_ROW + 1, Text) == Ok(row);
    var none: seq<DataRow> := [];
    assert [g][..0] == [];
    assert DataRows([], TestGroup, TestField) == Ok(none);
    assert none + [row] == [row];
  }

  /** A workbook of one group of one field is that field's sheet. */
  lemma SingleFieldWorkbook(group: Group, answers: seq<AnswerGroup>)
    requires |group.fields| == 1
    ensures var field := group.fields[0];
      match FieldSheet(SanitizeSheetName(field.fieldLabel), group, field, answers)
      case Ok(sheet) => Workbook([group], answers) == Ok([sheet])
      case Err(e) => Workbook([group], answers) == Err(e)
  {
    var none: seq<Sheet> := [];
    assert group.fields[..0] == [];
    assert GroupSheets(group, [], answers) == Ok(none);
    assert [group][..0] == [];
    assert Workbook([], answers) == Ok(none);
    match FieldSheet(SanitizeSheetName(group.fields[0].fieldLabel), group, group.fields[0], answers)
    case Ok(sheet) =>
      assert none + [sheet] == [sheet];
      assert GroupSheets(group, group.fields, answers) == Ok([sheet]);
      assert none + [sheet] == [sheet];
    case Err(e) =>
  }

  /** "Test Field" needs no sanitizing. */
  lemma TestFieldName()
    ensures SanitizeSheetName("Test Field") == "Test Field"
  {
    var name := SanitizeSheetName("Test Field");
    assert |name| == 10;
    forall i | 0 <= i < 10 ensures name[i] == "Test Field"[i] {
      assert !Forbidden("Test Field"[i]);
    }
  }

  /**
   * One text field and one submission: one sheet named after the field,
   * whose only data row, right after the header row 8, shows the user,
   * the email, the submission time and the answer.
   */
  lemma OneAnswerWorkbook(createdAt: string)
    ensures Workbook([TestGroup], [TestAnswer(createdAt)]) ==
      Ok([Sheet("Test Field", 8, HEADER,
                [DataRow(9, "Test User", "test@example.com", createdAt, TextCell("Test Answer"))])])
  {
    TestAnswerRows(createdAt);
    TestFieldName();
    SingleFieldWorkbook(TestGroup, [TestAnswer(createdAt)]);
  }

  /**
   * generateExcelForPrefab: the loop over the groups and the loop over
   * their fields, one sheet per field; the prefab and its submissions are
   * given.
   */
  method GenerateExcelForPrefab(prefab: Prefab, answers: seq<AnswerGroup>) returns (r: Result<seq<Sheet>, Crash>)
    ensures r == Workbook(prefab.groups, answers)
  {
    var workbook: seq<Sheet> := [];
    var a := 0;
    while a < |prefab.groups|
      invariant a <= |prefab.groups|
      invariant Workbook(prefab.groups[..a], answers) == Ok(workbook)
    {
      var group := prefab.groups[a];
      assert prefab.groups[..a + 1][..a] == prefab.groups[..a];
      ghost var before := workbook;
      ghost var made: seq<Sheet> := [];
      var b := 0;
      while b < |group.fields|
        invariant b <= |group.fields|
        invariant GroupSheets(group, group.fields[..b], answers) == Ok(made)
        invariant workbook == before + made
      {
        var field := group.fields[b];
        assert group.fields[..b + 1][..b] == group.fields[..b];
        var sheetName := SanitizeSheetName(field.fieldLabel);
        var sheet := PopulateFieldSheet(sheetName, group, field, answers);
        if sheet.Err? {
          r := Err(sheet.error);
          GroupSheetsCrashPersists(group, group.fields, answers, b + 1);
          WorkbookCrashPersists(prefab.groups, answers, a + 1);
          return;
        }
        workbook := workbook + [sheet.value];
        made := made + [sheet.value];
        b := b + 1;
      }
      assert group.fields[..b] == group.fields;
      a := a + 1;
    }
    assert prefab.groups[..a] == prefab.groups;
    r := Ok(workbook);
  }

  /** A crash for a prefix of a group's fields is the crash of the group. */
  lemma {:induction false} GroupSheetsCrashPersists(group: Group, fields: seq<Field>, answers: seq<AnswerGroup>, k: nat)
    requires k <= |fields| && GroupSheets(group, fields[..k], answers).Err?
    ensures GroupSheets(group, fields, answers) == GroupSheets(group, fields[..k], answers)
    decreases |fields| - k
  {
    if k < |fields| {
      assert fields[..k + 1][..k] == fields[..k];
      GroupSheetsCrashPersists(group, fields, answers, k + 1);
    } else {
      assert fields[..k] == fields;
    }
  }

  /** A crash for a prefix of the groups is the crash of the whole workbook. */
  lemma {:induction false} WorkbookCrashPersists(groups: seq<Group>, answers: seq<AnswerGroup>, k: nat)
    requires k <= |groups| && Workbook(groups[..k], answers).Err?
    ensures Workbook(groups, answers) == Workbook(groups[..k], answers)
    decreases |groups| - k
  {
    if k < |groups| {
      assert groups[..k + 1][..k] == groups[..k];
      WorkbookCrashPersists(groups, answers, k + 1);
    } else {
      assert groups[..k] == groups;
    }
  }
}
