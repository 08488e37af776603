/** Quiz scoring (`submit_quiz`, app.py): answers are matched to the
    lesson's questions by position, one tracking call is made per question
    and one on completion, and the attempt is saved with its score. */
module Quiz {
  import opened Wrappers
  import opened Text
  import opened JsonValues
  import opened Ingestion
  import opened Events

  /** A `QuizQuestion` row: its id and the index of the correct option. */
  datatype Question = Question(id: nat, correctAnswer: int)

  /** The saved `QuizAttempt`: the lesson id as sent, the score and the
      answers as sent. */
  datatype Attempt = Attempt(lessonId: Json, score: real, answers: Option<Json>)

  /** What a successful submission produces, in order of its effects: the
      per-question tracking calls followed by the completion call, and the
      attempt saved between them. */
  datatype Outcome = Outcome(correct: nat, total: nat, score: real, tracked: seq<TrackCall>, attempt: Attempt)

  /** Why a submission fails: the body is not a dict (`data.get` raises),
      the lesson does not exist (404), the answers are not a dict when there
      is a question to look up (`.get` raises before anything is recorded),
      or there are no questions (the score divides by zero before the
      attempt is saved). */
  datatype QuizError = BodyNotDict | LessonNotFound | AnswersNotObject | NoQuestions

  /** The answer given for question `i`: `answers.get(str(i))`. */
  function AnswerFor(answers: seq<(string, Json)>, i: nat): Option<Json>
  {
    Get(answers, IntStr(i))
  }

  /** Question `i` was answered correctly (Python `==`, so `1.0` and `True`
      match `1`). */
  predicate Matches(answers: seq<(string, Json)>, questions: seq<Question>, i: nat)
    requires i < |questions|
  {
    var a := AnswerFor(answers, i);
    a.Some? && EqualsInt(a.value, questions[i].correctAnswer)
  }

  /** Reference count: how many of the first `n` questions match. */
  function CorrectAmong(answers: seq<(string, Json)>, questions: seq<Question>, n: nat): (c: nat)
    requires n <= |questions|
    ensures c <= n
  {
    if n == 0 then 0
    else CorrectAmong(answers, questions, n - 1) + (if Matches(answers, questions, n - 1) then 1 else 0)
  }

  /** A full score means every question matched. */
  lemma {:induction false} AllCorrectIff(answers: seq<(string, Json)>, questions: seq<Question>, n: nat)
    requires n <= |questions|
    ensures CorrectAmong(answers, questions, n) == n <==> forall i :: 0 <= i < n ==> Matches(answers, questions, i)
  {
    if n > 0 {
      AllCorrectIff(answers, questions, n - 1);
      assert (forall i :: 0 <= i < n ==> Matches(answers, questions, i)) <==>
             (forall i :: 0 <= i < n - 1 ==> Matches(answers, questions, i)) && Matches(answers, questions, n - 1);
    }
  }

  /** A zero count means no question matched. */
  lemma {:induction false} NoneCorrectIff(answers: seq<(string, Json)>, questions: seq<Question>, n: nat)
    requires n <= |questions|
    ensures CorrectAmong(answers, questions, n) == 0 <==> forall i :: 0 <= i < n ==> !Matches(answers, questions, i)
  {
    if n > 0 {
      NoneCorrectIff(answers, questions, n - 1);
      if Matches(answers, questions, n - 1) {
        assert CorrectAmong(answers, questions, n) > 0;
      } else {
        assert CorrectAmong(answers, questions, n) == CorrectAmong(answers, questions, n - 1);
        assert (forall i :: 0 <= i < n ==> !Matches(answers, questions, i)) <==>
               (forall i :: 0 <= i < n - 1 ==> !Matches(answers, questions, i));
      }
    }
  }

  /** The tracking call for one question attempt: a `quiz_action` on the
      element `question_<id>`, with the lesson id as sent, the question, the
      answer given (null when missing) and the correct answer as payload. */
  function QuestionCall(lessonId: Json, q: Question, answer: Option<Json>): (r: TrackCall)
    ensures r.eventType == "quiz_action" && r.elementType == "quiz_question" && r.userId.None?
    ensures r.elementId == "question_" + IntStr(q.id)
    ensures r.additionalData.Some? && r.additionalData.value.JObject?
  {
    TrackCall("quiz_action", "question_" + IntStr(q.id), "quiz_question", None,
      Some(JObject([("quiz_id", lessonId), ("question_id", JInt(q.id)),
                    ("answer_selected", answer.GetOr(JNull)), ("correct_answer", JInt(q.correctAnswer))])))
  }

  lemma QuestionFields(lessonId: Json, q: Question, answer: Option<Json>)
    ensures QuestionCall(lessonId, q, answer).additionalData.value.fields
      == [("quiz_id", lessonId), ("question_id", JInt(q.id)),
          ("answer_selected", answer.GetOr(JNull)), ("correct_answer", JInt(q.correctAnswer))]
  {
  }

  lemma QuestionKeys(lessonId: Json, q: Question, answer: Option<Json>)
    ensures Keys(QuestionCall(lessonId, q, answer).additionalData.value.fields)
      == ["quiz_id", "question_id", "answer_selected", "correct_answer"]
  {
  }

  /** The question payload names the lesson, the question, the answer as
      sent and the correct answer, in that order. */
  lemma QuestionPayload(lessonId: Json, q: Question, answer: Option<Json>)
    ensures var f := QuestionCall(lessonId, q, answer).additionalData.value.fields;
      && Keys(f) == ["quiz_id", "question_id", "answer_selected", "correct_answer"]
      && Get(f, "quiz_id") == Some(lessonId)
      && Get(f, "question_id") == Some(JInt(q.id))
      && Get(f, "answer_selected") == Some(answer.GetOr(JNull))
      && Get(f, "correct_answer") == Some(JInt(q.correctAnswer))
  {
    var f := QuestionCall(lessonId, q, answer).additionalData.value.fields;
    QuestionFields(lessonId, q, answer);
    QuestionKeys(lessonId, q, answer);
    GetFour("quiz_id", "question_id", "answer_selected", "correct_answer",
      lessonId, JInt(q.id), answer.GetOr(JNull), JInt(q.correctAnswer));
  }

  /** Stored through `track_event`, a question attempt keeps the lesson and
      question ids only in its payload: the quiz columns stay NULL. */
  lemma QuestionColumnsEmpty(lessonId: Json, q: Question, answer: Option<Json>, ctx: RequestContext)
    ensures var e := TrackEvent(QuestionCall(lessonId, q, answer), ctx);
      && e.quizId.None? && e.questionId.None? && e.answerSelected.None?
      && e.additionalData == Parsed(QuestionCall(lessonId, q, answer).additionalData.value)
      && e.elementId == Some("question_" + IntStr(q.id))
  {
    var call := QuestionCall(lessonId, q, answer);
    assert Truthy(call.additionalData.value);
    var e := TrackEvent(call, ctx);
    assert FamilyColumn(e, "quiz_id").None? && FamilyColumn(e, "question_id").None?;
    assert FamilyColumn(e, "answer_selected").None?;
  }

  /** The tracking call made once the quiz is scored: a `quiz_action` on
      the element `quiz_<lesson>_complete`, where the lesson id is written
      as the f-string writes it (`str`), with the score and the question
      count as payload. */
  function CompletionCall(lessonId: Json, score: real, total: nat, floatStr: real -> string): (r: TrackCall)
    ensures r.eventType == "quiz_action" && r.elementType == "quiz" && r.userId.None?
    ensures "quiz_" <= r.elementId && |r.elementId| >= 14
    ensures r.elementId[5..|r.elementId| - 9] == Str(lessonId, floatStr)
    ensures r.elementId[|r.elementId| - 9..] == "_complete"
    ensures r.additionalData.Some? && r.additionalData.value.JObject?
  {
    var id := "quiz_" + Str(lessonId, floatStr) + "_complete";
    assert id[5..|id| - 9] == Str(lessonId, floatStr);
    TrackCall("quiz_action", id, "quiz", None,
      Some(JObject([("score", JFloat(score)), ("total_questions", JInt(total))])))
  }

  /** The completion payload carries the score as a float and the number of
      questions, and no answer. */
  lemma CompletionPayload(lessonId: Json, score: real, total: nat, floatStr: real -> string)
    ensures var f := CompletionCall(lessonId, score, total, floatStr).additionalData.value.fields;
      && Keys(f) == ["score", "total_questions"]
      && Get(f, "score") == Some(JFloat(score))
      && Get(f, "total_questions") == Some(JInt(total))
      && !HasKey(f, "answer_selected")
  {
    var f := CompletionCall(lessonId, score, total, floatStr).additionalData.value.fields;
    assert Keys(f) == ["score", "total_questions"];
    GetFirst(f, 0, "score");
    GetFirst(f, 1, "total_questions");
    MissingKey(f, "answer_selected");
  }

  /** The scoring loop: the number of matching answers, and one tracking
      call per question in question order. */
  method ScoreAnswers(lessonId: Json, questions: seq<Question>, fields: seq<(string, Json)>)
    returns (correct: nat, tracked: seq<TrackCall>)
    ensures correct == CorrectAmong(fields, questions, |questions|)
    ensures |tracked| == |questions|
    ensures forall i :: 0 <= i < |questions| ==> tracked[i] == QuestionCall(lessonId, questions[i], AnswerFor(fields, i))
  {
    correct := 0;
    var i := 0;
    while i < |questions|
      invariant 0 <= i <= |questions|
      invariant correct == CorrectAmong(fields, questions, i)
    {
      var answer := AnswerFor(fields, i);
      if answer.Some? && EqualsInt(answer.value, questions[i].correctAnswer) {
        correct := correct + 1;
      }
      i := i + 1;
    }
    tracked := seq(|questions|, k requires 0 <= k < |questions| => QuestionCall(lessonId, questions[k], AnswerFor(fields, k)));
  }

  /** The score as a percentage of questions answered correctly. */
  function Score(correct: nat, total: nat): (s: real)
    requires 0 < total
    ensures s * (total as real) == 100.0 * (correct as real)
    ensures correct <= total ==> 0.0 <= s <= 100.0
  {
    (correct as real / total as real) * 100.0
  }

  /** `submit_quiz` once the body is read: the lesson id and the answers as
      sent, whether the lesson id finds a lesson, and that lesson's questions
      in store order. */
  method SubmitQuiz(lessonId: Json, lessonExists: bool, questions: seq<Question>, answers: Option<Json>,
                    floatStr: real -> string)
    returns (r: Result<Outcome, QuizError>)
    ensures r != Failure(BodyNotDict)
    ensures !lessonExists <==> r == Failure(LessonNotFound)
    ensures lessonExists && |questions| > 0 && !(answers.Some? && answers.value.JObject?) ==> r == Failure(AnswersNotObject)
    ensures lessonExists && |questions| == 0 ==> r == Failure(NoQuestions)
    ensures r.Success? <==> lessonExists && |questions| > 0 && answers.Some? && answers.value.JObject?
    ensures r.Success? ==>
      && r.value.total == |questions|
      && r.value.correct == CorrectAmong(answers.value.fields, questions, |questions|)
      && r.value.correct <= r.value.total
      && r.value.score == Score(r.value.correct, r.value.total)
      && |r.value.tracked| == r.value.total + 1
      && (forall i :: 0 <= i < r.value.total ==>
            r.value.tracked[i] == QuestionCall(lessonId, questions[i], AnswerFor(answers.value.fields, i)))
      && r.value.tracked[r.value.total] == CompletionCall(lessonId, r.value.score, r.value.total, floatStr)
      && r.value.attempt == Attempt(lessonId, r.value.score, answers)
  {
    if !lessonExists {
      return Failure(LessonNotFound);
    }
    var total := |questions|;
    if total == 0 {
      return Failure(NoQuestions);
    }
    if !(answers.Some? && answers.value.JObject?) {
      return Failure(AnswersNotObject);
    }
    var perQuestion;
    var correct;
    correct, perQuestion := ScoreAnswers(lessonId, questions, answers.value.fields);
    var score := Score(correct, total);
    var tracked := perQuestion + [CompletionCall(lessonId, score, total, floatStr)];
    assert forall i :: 0 <= i < total ==> tracked[i] == perQuestion[i];
    r := Success(Outcome(correct, total, score, tracked, Attempt(lessonId, score, answers)));
  }

  /** `data.get('lesson_id')` and `data.get('answers')` on the request body:
      a body that is not a dict has no `.get`; a missing lesson id, like a
      JSON null, is Python's `None`. */
  function ReadQuizBody(body: Json): (r: Result<(Json, Option<Json>), QuizError>)
    ensures r.Failure? <==> !body.JObject?
    ensures r.Failure? ==> r.error == BodyNotDict
    ensures r.Success? ==> r.value.1 == Get(body.fields, "answers")
    ensures r.Success? && HasKey(body.fields, "lesson_id") ==> r.value.0 == Get(body.fields, "lesson_id").value
    ensures r.Success? && !HasKey(body.fields, "lesson_id") ==> r.value.0 == JNull
  {
    match body
    case JObject(f) => Success((Get(f, "lesson_id").GetOr(JNull), Get(f, "answers")))
    case _ => Failure(BodyNotDict)
  }

  /** The whole route: the body is read, then the submission is scored for
      the lesson the sent id names (`lessonExists`, `questionsOf` stand for
      the database lookups by that id). */
  method SubmitQuizBody(body: Json, lessonExists: Json -> bool, questionsOf: Json -> seq<Question>,
                        floatStr: real -> string)
    returns (r: Result<Outcome, QuizError>)
    ensures !body.JObject? <==> r == Failure(BodyNotDict)
    ensures body.JObject? ==>
      var lessonId := Get(body.fields, "lesson_id").GetOr(JNull);
      var answers := Get(body.fields, "answers");
      && (r == Failure(LessonNotFound) <==> !lessonExists(lessonId))
      && (r.Success? <==> lessonExists(lessonId) && |questionsOf(lessonId)| > 0 && answers.Some? && answers.value.JObject?)
      && (r.Success? ==>
            && r.value.total == |questionsOf(lessonId)|
            && r.value.correct == CorrectAmong(answers.value.fields, questionsOf(lessonId), r.value.total)
            && r.value.attempt == Attempt(lessonId, r.value.score, answers)
            && |r.value.tracked| == r.value.total + 1
            && r.value.tracked[r.value.total] == CompletionCall(lessonId, r.value.score, r.value.total, floatStr)
            && (forall i :: 0 <= i < r.value.total ==>
                  r.value.tracked[i] == QuestionCall(lessonId, questionsOf(lessonId)[i], AnswerFor(answers.value.fields, i))))
  {
    var read := ReadQuizBody(body);
    if read.Failure? {
      return Failure(read.error);
    }
    var lessonId, answers := read.value.0, read.value.1;
    r := SubmitQuiz(lessonId, lessonExists(lessonId), questionsOf(lessonId), answers, floatStr);
  }

  /** The completion id writes the lesson id as sent: an integer as its
      digits and text as itself, so `"3"` gives the same id as `3`. */
  lemma CompletionIds(score: real, total: nat, floatStr: real -> string)
    ensures CompletionCall(JInt(3), score, total, floatStr).elementId == "quiz_3_complete"
    ensures CompletionCall(JStr("3"), score, total, floatStr).elementId == "quiz_3_complete"
  {
    assert CompletionCall(JInt(3), score, total, floatStr).elementId == "quiz_3_complete" by {
      assert Str(JInt(3), floatStr) == IntStr(3) == NatStr(3) == "3";
      CompletionIdText(JInt(3), score, total, floatStr);
    }
    assert CompletionCall(JStr("3"), score, total, floatStr).elementId == "quiz_3_complete" by {
      CompletionIdText(JStr("3"), score, total, floatStr);
    }
  }

  /** A boolean lesson id is spelled as Python spells it, and a float as
      Python's float text. */
  lemma CompletionIdSpelled(score: real, total: nat, floatStr: real -> string)
    ensures CompletionCall(JBool(true), score, total, floatStr).elementId == "quiz_True_complete"
    ensures CompletionCall(JFloat(3.0), score, total, floatStr).elementId == "quiz_" + floatStr(3.0) + "_complete"
  {
    assert CompletionCall(JBool(true), score, total, floatStr).elementId == "quiz_True_complete" by {
      CompletionIdText(JBool(true), score, total, floatStr);
    }
    assert CompletionCall(JFloat(3.0), score, total, floatStr).elementId == "quiz_" + floatStr(3.0) + "_complete" by {
      CompletionIdText(JFloat(3.0), score, total, floatStr);
    }
  }

  /** The completion id is the lesson id's `str` between `quiz_` and
      `_complete`. */
  lemma CompletionIdText(lessonId: Json, score: real, total: nat, floatStr: real -> string)
    ensures CompletionCall(lessonId, score, total, floatStr).elementId == "quiz_" + Str(lessonId, floatStr) + "_complete"
  {
  }

  /** A lesson id sent as text is echoed as text in every question payload,
      not converted to the number the lookup matched. */
  lemma TextLessonEchoed(q: Question, answer: Option<Json>)
    ensures Get(QuestionCall(JStr("3"), q, answer).additionalData.value.fields, "quiz_id") == Some(JStr("3"))
  {
    QuestionPayload(JStr("3"), q, answer);
  }
}
