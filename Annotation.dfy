/**
 * The read-side annotation of a stored submission (updateAnswerForm and
 * updateFieldMultiple): every question receives the type of the prefab
 * field at the same (group, field) position, multiple-choice questions
 * receive the field's choices, and the answer of a radio question is
 * wrapped into a one-element array.
 */
module Annotation {
  import opened Results
  import opened Values
  import opened Forms

  /**
   * updateFieldMultiple: the choices are read first (a field without
   * options is a `NullPointerException`), then a radio answer is cast to
   * `String` and wrapped, so only a string or a null answer can be wrapped.
   */
  function UpdateFieldMultiple(q: AnswerQuestion, field: Field): (r: Result<AnswerQuestion, Crash>)
    ensures field.options.None? ==> r == Err(NullPointer)
    ensures field.options.Some? && !HasRule(field, IsRadio) ==>
      r == Ok(q.(choices := field.options))
    ensures field.options.Some? && HasRule(field, IsRadio) ==>
      && (r.Ok? <==> q.answer.Str? || q.answer.Null?)
      && (r.Ok? ==> r.value == q.(choices := field.options, answer := List([q.answer])))
      && (r.Err? ==> r.error == ClassCast)
  {
    if field.options.None? then Err(NullPointer)
    else
      var withChoices := q.(choices := field.options);
      if !HasRule(field, IsRadio) then Ok(withChoices)
      else if q.answer.Str? || q.answer.Null? then Ok(withChoices.(answer := List([q.answer])))
      else Err(ClassCast)
  }

  /** The prefab has a field at position (a, b). */
  predicate HasField(prefab: Prefab, a: nat, b: nat)
  {
    a < |prefab.groups| && b < |prefab.groups[a].fields|
  }

  /**
   * The body of the inner loop of updateAnswerForm for the question at
   * position (a, b): the field lookup, the type, and the multiple-choice
   * update.
   */
  function AnnotateQuestion(q: AnswerQuestion, prefab: Prefab, a: nat, b: nat): (r: Result<AnswerQuestion, Crash>)
    ensures !HasField(prefab, a, b) ==> r == Err(IndexOutOfBounds)
    ensures r.Ok? ==>
      && HasField(prefab, a, b)
      && r.value.question == q.question
      && r.value.qtype == Some(prefab.groups[a].fields[b].fieldType)
    ensures HasField(prefab, a, b) && prefab.groups[a].fields[b].fieldType != MultipleChoice ==>
      r == Ok(q.(qtype := Some(prefab.groups[a].fields[b].fieldType)))
    ensures HasField(prefab, a, b) && prefab.groups[a].fields[b].fieldType == MultipleChoice ==>
      r == UpdateFieldMultiple(q.(qtype := Some(MultipleChoice)), prefab.groups[a].fields[b])
  {
    if !HasField(prefab, a, b) then Err(IndexOutOfBounds)
    else
      var field := prefab.groups[a].fields[b];
      var typed := q.(qtype := Some(field.fieldType));
      if field.fieldType == MultipleChoice then UpdateFieldMultiple(typed, field) else Ok(typed)
  }

  /** The inner loop over the questions of sub-group `a`, as a left fold that stops at the first crash. */
  function AnnotateQuestions(qs: seq<AnswerQuestion>, prefab: Prefab, a: nat): (r: Result<seq<AnswerQuestion>, Crash>)
    ensures r.Ok? ==> |r.value| == |qs|
    decreases |qs|
  {
    if qs == [] then Ok([])
    else
      match AnnotateQuestions(qs[..|qs| - 1], prefab, a)
      case Err(e) => Err(e)
      case Ok(done) =>
        match AnnotateQuestion(qs[|qs| - 1], prefab, a, |qs| - 1)
        case Err(e) => Err(e)
        case Ok(q) => Ok(done + [q])
  }

  /** The outer loop over the sub-groups, as a left fold that stops at the first crash. */
  function AnnotateSubGroups(subs: seq<AnswerSubGroup>, prefab: Prefab): (r: Result<seq<AnswerSubGroup>, Crash>)
    ensures r.Ok? ==> |r.value| == |subs|
    decreases |subs|
  {
    if subs == [] then Ok([])
    else
      var last := subs[|subs| - 1];
      match AnnotateSubGroups(subs[..|subs| - 1], prefab)
      case Err(e) => Err(e)
      case Ok(done) =>
        match AnnotateQuestions(last.questions, prefab, |subs| - 1)
        case Err(e) => Err(e)
        case Ok(qs) => Ok(done + [last.(questions := qs)])
  }

  /** The annotated submission, or the exception that interrupts the annotation. */
  function AnnotateForm(g: AnswerGroup, prefab: Prefab): Result<AnswerGroup, Crash>
  {
    match AnnotateSubGroups(g.answers, prefab)
    case Err(e) => Err(e)
    case Ok(subs) => Ok(g.(answers := subs))
  }

  /** A crash in a prefix of the questions is the crash of the whole loop. */
  lemma {:induction false} QuestionsCrashPersists(qs: seq<AnswerQuestion>, prefab: Prefab, a: nat, k: nat)
    requires k <= |qs| && AnnotateQuestions(qs[..k], prefab, a).Err?
    ensures AnnotateQuestions(qs, prefab, a) == AnnotateQuestions(qs[..k], prefab, a)
    decreases |qs| - k
  {
    if k < |qs| {
      assert qs[..k + 1][..k] == qs[..k];
      QuestionsCrashPersists(qs, prefab, a, k + 1);
    } else {
      assert qs[..k] == qs;
    }
  }

  /** A crash in a prefix of the sub-groups is the crash of the whole loop. */
  lemma {:induction false} SubGroupsCrashPersists(subs: seq<AnswerSubGroup>, prefab: Prefab, k: nat)
    requires k <= |subs| && AnnotateSubGroups(subs[..k], prefab).Err?
    ensures AnnotateSubGroups(subs, prefab) == AnnotateSubGroups(subs[..k], prefab)
    decreases |subs| - k
  {
    if k < |subs| {
      assert subs[..k + 1][..k] == subs[..k];
      SubGroupsCrashPersists(subs, prefab, k + 1);
    } else {
      assert subs[..k] == subs;
    }
  }

  /**
   * The question loop succeeds iff every position succeeds, and then the
   * question at position b is the annotation of the question at b.
   */
  lemma {:induction false} QuestionsPointwise(qs: seq<AnswerQuestion>, prefab: Prefab, a: nat)
    ensures AnnotateQuestions(qs, prefab, a).Ok? <==>
      forall b :: 0 <= b < |qs| ==> AnnotateQuestion(qs[b], prefab, a, b).Ok?
    ensures AnnotateQuestions(qs, prefab, a).Ok? ==>
      forall b :: 0 <= b < |qs| ==> AnnotateQuestions(qs, prefab, a).value[b] == AnnotateQuestion(qs[b], prefab, a, b).value
    decreases |qs|
  {
    if qs != [] {
      var init := qs[..|qs| - 1];
      QuestionsPointwise(init, prefab, a);
      assert forall b :: 0 <= b < |init| ==> init[b] == qs[b];
    }
  }

  /**
   * The annotation succeeds iff every question succeeds at its position;
   * then the shape, the group names and the question texts are kept and
   * each question is the annotation of the stored one.
   */
  lemma {:induction false} AnnotatePointwise(subs: seq<AnswerSubGroup>, prefab: Prefab)
    ensures AnnotateSubGroups(subs, prefab).Ok? <==>
      forall a, b :: 0 <= a < |subs| && 0 <= b < |subs[a].questions| ==>
        AnnotateQuestion(subs[a].questions[b], prefab, a, b).Ok?
    ensures AnnotateSubGroups(subs, prefab).Ok? ==>
      var out := AnnotateSubGroups(subs, prefab).value;
      forall a :: 0 <= a < |subs| ==>
        && out[a].group == subs[a].group
        && |out[a].questions| == |subs[a].questions|
        && forall b :: 0 <= b < |subs[a].questions| ==>
             out[a].questions[b] == AnnotateQuestion(subs[a].questions[b], prefab, a, b).value
    decreases |subs|
  {
    if subs != [] {
      var n := |subs| - 1;
      var init := subs[..n];
      AnnotatePointwise(init, prefab);
      QuestionsPointwise(subs[n].questions, prefab, n);
      assert forall a :: 0 <= a < n ==> init[a] == subs[a];
    }
  }

  /**
   * An annotated submission keeps its shape; each question takes the type
   * of the field at its position, a multiple-choice question the field's
   * choices, and a radio question its previous answer wrapped in an array.
   */
  lemma AnnotationByPosition(g: AnswerGroup, prefab: Prefab, a: nat, b: nat)
    requires AnnotateForm(g, prefab).Ok?
    requires a < |g.answers| && b < |g.answers[a].questions|
    ensures HasField(prefab, a, b)
    ensures var out := AnnotateForm(g, prefab).value;
      var q, field := g.answers[a].questions[b], prefab.groups[a].fields[b];
      && |out.answers| == |g.answers|
      && out.answers[a].group == g.answers[a].group
      && |out.answers[a].questions| == |g.answers[a].questions|
      && out.answers[a].questions[b].question == q.question
      && out.answers[a].questions[b].qtype == Some(field.fieldType)
      && (field.fieldType == MultipleChoice ==> out.answers[a].questions[b].choices == field.options)
      && (field.fieldType == MultipleChoice && HasRule(field, IsRadio) ==>
            out.answers[a].questions[b].answer == List([q.answer]))
      && (field.fieldType != MultipleChoice || !HasRule(field, IsRadio) ==>
            out.answers[a].questions[b].answer == q.answer)
  {
    AnnotatePointwise(g.answers, prefab);
    assert AnnotateQuestion(g.answers[a].questions[b], prefab, a, b).Ok?;
  }

  /**
   * Annotation is not idempotent: once a radio question has been wrapped,
   * annotating the annotated submission again fails with a
   * `ClassCastException`.
   */
  lemma RadioAnnotationNotIdempotent(g: AnswerGroup, prefab: Prefab, a: nat, b: nat)
    requires AnnotateForm(g, prefab).Ok?
    requires a < |g.answers| && b < |g.answers[a].questions|
    requires HasField(prefab, a, b)
    requires prefab.groups[a].fields[b].fieldType == MultipleChoice
    requires HasRule(prefab.groups[a].fields[b], IsRadio)
    ensures AnnotateForm(AnnotateForm(g, prefab).value, prefab).Err?
  {
    var out := AnnotateForm(g, prefab).value;
    var field := prefab.groups[a].fields[b];
    AnnotatePointwise(g.answers, prefab);
    assert AnnotateQuestion(g.answers[a].questions[b], prefab, a, b).Ok?;
    assert field.options.Some?;
    AnnotationByPosition(g, prefab, a, b);
    assert out.answers[a].questions[b].answer.List?;
    assert AnnotateQuestion(out.answers[a].questions[b], prefab, a, b) == Err(ClassCast);
    AnnotatePointwise(out.answers, prefab);
  }

  /**
   * updateAnswerForm: the nested loops with the counters `a` and `b`,
   * stopping at the first exception.
   */
  method UpdateAnswerForm(g: AnswerGroup, prefab: Prefab) returns (r: Result<AnswerGroup, Crash>)
    ensures r == AnnotateForm(g, prefab)
  {
    var subs: seq<AnswerSubGroup> := [];
    var a := 0;
    while a < |g.answers|
      invariant a <= |g.answers|
      invariant AnnotateSubGroups(g.answers[..a], prefab) == Ok(subs)
    {
      var sub := g.answers[a];
      var qs: seq<AnswerQuestion> := [];
      var b := 0;
      assert g.answers[..a + 1][..a] == g.answers[..a];
      while b < |sub.questions|
        invariant b <= |sub.questions|
        invariant AnnotateQuestions(sub.questions[..b], prefab, a) == Ok(qs)
      {
        assert sub.questions[..b + 1][..b] == sub.questions[..b];
        if a >= |prefab.groups| || b >= |prefab.groups[a].fields| {
          r := Err(IndexOutOfBounds);
          QuestionsCrashPersists(sub.questions, prefab, a, b + 1);
          SubGroupsCrashPersists(g.answers, prefab, a + 1);
          return;
        }
        var field := prefab.groups[a].fields[b];
        var q := sub.questions[b].(qtype := Some(field.fieldType));
        if field.fieldType == MultipleChoice {
          var updated := UpdateFieldMultiple(q, field);
          if updated.Err? {
            r := Err(updated.error);
            QuestionsCrashPersists(sub.questions, prefab, a, b + 1);
            SubGroupsCrashPersists(g.answers, prefab, a + 1);
            return;
          }
          q := updated.value;
        }
        qs := qs + [q];
        b := b + 1;
      }
      assert sub.questions[..b] == sub.questions;
      subs := subs + [sub.(questions := qs)];
      a := a + 1;
    }
    assert g.answers[..a] == g.answers;
    r := Ok(g.(answers := subs));
  }
}
