/** The quiz controller over the `quizzes`, `questions` and `quiz_attempts`
    tables: showing a quiz without its answers, grading a submission,
    recording the attempt and completing the lesson at 80%, and listing a
    user's past attempts. */
module Quiz {
  import opened Common
  import opened Schema
  import opened Progress

  // ---------------------------------------------------------------------------
  // Grading

  /** The `answers` object of a submission. `Missing` is any falsy value
      (absent, null, false, 0, ""); `NotAnObject` a truthy value of another
      type. `Given` maps question ids to the chosen letter; an answer that is
      not a string can never equal a correct answer and is left out. */
  datatype Answers = Missing | NotAnObject | Given(choices: map<Id, string>)

  /** `answers[question.id]`. */
  function AnswerTo(choices: map<Id, string>, q: QuestionRow): Option<string> {
    if q.id in choices then Some(choices[q.id]) else None
  }

  /** `userAnswer === question.correct_answer`. */
  predicate AnsweredRight(choices: map<Id, string>, q: QuestionRow) {
    q.id in choices && choices[q.id] == q.correct
  }

  /** One entry of `results`, merged with the question text and explanation. */
  datatype QuestionResult = QuestionResult(
    questionId: Id, userAnswer: Option<string>, correctAnswer: string,
    isCorrect: bool, question: string, explanation: string)

  function ResultFor(choices: map<Id, string>, q: QuestionRow): QuestionResult {
    QuestionResult(q.id, AnswerTo(choices, q), q.correct, AnsweredRight(choices, q), q.text, q.explanation)
  }

  /** The results of the questions in order. */
  function Graded(qs: seq<QuestionRow>, choices: map<Id, string>): (r: seq<QuestionResult>)
    ensures |r| == |qs|
    ensures forall i :: 0 <= i < |qs| ==>
      && r[i].questionId == qs[i].id
      && r[i].userAnswer == AnswerTo(choices, qs[i])
      && r[i].correctAnswer == qs[i].correct
      && (r[i].isCorrect <==> AnsweredRight(choices, qs[i]))
      && r[i].question == qs[i].text
      && r[i].explanation == qs[i].explanation
  {
    if qs == [] then []
    else
      var n := |qs| - 1;
      var before := Graded(qs[..n], choices);
      assert forall i :: 0 <= i < n ==> qs[i] == qs[..n][i];
      before + [ResultFor(choices, qs[n])]
  }

  /** The number of questions answered right. */
  function Score(qs: seq<QuestionRow>, choices: map<Id, string>): (n: nat)
    ensures n <= |qs|
  {
    if qs == [] then 0
    else Score(qs[..|qs| - 1], choices) + (if AnsweredRight(choices, qs[|qs| - 1]) then 1 else 0)
  }

  /** The score is the number of results marked correct. */
  lemma {:induction false} ScoreCountsResults(qs: seq<QuestionRow>, choices: map<Id, string>)
    ensures Score(qs, choices) == |Filter(Graded(qs, choices), (r: QuestionResult) => r.isCorrect)|
  {
    if qs != [] {
      var n := |qs| - 1;
      ScoreCountsResults(qs[..n], choices);
      FilterAppend(Graded(qs[..n], choices), [ResultFor(choices, qs[n])], (r: QuestionResult) => r.isCorrect);
    }
  }

  lemma {:induction false} FilterAppend<T(!new)>(a: seq<T>, b: seq<T>, keep: T -> bool)
    ensures Filter(a + b, keep) == Filter(a, keep) + Filter(b, keep)
  {
    if a != [] {
      assert (a + b)[1..] == a[1..] + b;
      FilterAppend(a[1..], b, keep);
    } else {
      assert a + b == b;
    }
  }

  /** Full marks exactly when every question is answered right. */
  lemma {:induction false} FullMarks(qs: seq<QuestionRow>, choices: map<Id, string>)
    ensures Score(qs, choices) == |qs| <==> forall i :: 0 <= i < |qs| ==> AnsweredRight(choices, qs[i])
  {
    if qs != [] {
      var n := |qs| - 1;
      FullMarks(qs[..n], choices);
      assert forall i :: 0 <= i < n ==> qs[i] == qs[..n][i];
    }
  }

  /** `(score / questions.length) * 100 >= 80`, on exact rationals. */
  predicate Passed(score: nat, total: nat) {
    100 * score >= 80 * total
  }

  /** A pass always shows at least 80 percent (the converse fails: 159 of 200
      rounds up to 80 without passing). */
  lemma PassedShowsEighty(score: nat, total: nat)
    requires total > 0 && Passed(score, total)
    ensures RoundedPercent(score, total) >= 80
  {
    var p := RoundedPercent(score, total);
    assert 2 * total * 80 <= 200 * score < 200 * score + total < 2 * total * (p + 1);
    if p < 80 {
      MulMonotone(2 * total, p + 1, 80);
    }
  }

  lemma NotPassedYetEighty()
    ensures !Passed(159, 200) && RoundedPercent(159, 200) == 80
  {}

  // ---------------------------------------------------------------------------
  // Views

  /** A question as `getQuiz` shows it: without correct answer or explanation. */
  datatype PublicQuestion = PublicQuestion(id: Id, text: string, a: string, b: string, c: string, d: string)

  function Public(q: QuestionRow): PublicQuestion {
    PublicQuestion(q.id, q.text, q.a, q.b, q.c, q.d)
  }

  function Publics(qs: seq<QuestionRow>): (r: seq<PublicQuestion>)
    ensures |r| == |qs| && forall i :: 0 <= i < |qs| ==> r[i] == Public(qs[i])
  {
    if qs == [] then [] else [Public(qs[0])] + Publics(qs[1..])
  }

  datatype QuizView = QuizView(quiz: QuizRow, questions: seq<PublicQuestion>)

  datatype Submission = Submission(score: nat, totalQuestions: nat, percentage: nat, results: seq<QuestionResult>)

  /** One entry of the quiz history. */
  datatype HistoryEntry = HistoryEntry(
    id: Id, quizId: Id, lessonId: Id, lessonTitle: string, quizTitle: string,
    score: nat, totalQuestions: nat, percentage: nat, completedAt: int)

  /** One entry of the attempts of a quiz. */
  datatype AttemptView = AttemptView(
    id: Id, score: nat, totalQuestions: nat, percentage: nat, completedAt: int,
    answers: map<Id, string>)

  function OrderKey(q: QuestionRow): int { q.orderIndex }

  function CompletedAtOf(a: AttemptRow): int { a.completedAt }

  function EntryTime(e: HistoryEntry): int { e.completedAt }

  /** The history row of one attempt: the inner joins with `quizzes` and
      `lessons` drop an attempt whose quiz or lesson is gone. */
  function JoinAttempt(a: AttemptRow, quizzes: seq<QuizRow>, lessons: seq<LessonRow>): (r: seq<HistoryEntry>)
    ensures |r| <= 1
    ensures r != [] ==> r[0].id == a.id && r[0].quizId == a.quiz && r[0].score == a.score
    ensures r != [] ==> r[0].totalQuestions == a.total && r[0].completedAt == a.completedAt
    ensures r != [] ==> r[0].percentage == GuardedPercent(a.score, a.total)
    ensures r != [] <==>
      && First(quizzes, (q: QuizRow) => q.id == a.quiz).Some?
      && First(lessons, (l: LessonRow) => l.id == First(quizzes, (q: QuizRow) => q.id == a.quiz).value.lesson).Some?
    ensures r != [] ==>
      var q := First(quizzes, (q: QuizRow) => q.id == a.quiz).value;
      var l := First(lessons, (l: LessonRow) => l.id == q.lesson).value;
      r[0].lessonId == q.lesson && r[0].quizTitle == q.title && r[0].lessonTitle == l.title
  {
    match First(quizzes, (q: QuizRow) => q.id == a.quiz)
    case None => []
    case Some(q) =>
      match First(lessons, (l: LessonRow) => l.id == q.lesson)
      case None => []
      case Some(l) =>
        [HistoryEntry(a.id, a.quiz, q.lesson, l.title, q.title, a.score, a.total,
                      GuardedPercent(a.score, a.total), a.completedAt)]
  }

  /** The history rows of attempts, in table order. */
  function JoinAttempts(atts: seq<AttemptRow>, quizzes: seq<QuizRow>, lessons: seq<LessonRow>): (r: seq<HistoryEntry>)
    ensures |r| <= |atts|
    ensures forall e :: e in r ==> exists a :: a in atts && JoinAttempt(a, quizzes, lessons) == [e]
    ensures forall a :: a in atts && JoinAttempt(a, quizzes, lessons) != [] ==> JoinAttempt(a, quizzes, lessons)[0] in r
  {
    if atts == [] then []
    else
      var first := JoinAttempt(atts[0], quizzes, lessons);
      var rest := JoinAttempts(atts[1..], quizzes, lessons);
      assert forall a :: a in atts[1..] ==> a in atts;
      first + rest
  }

  /** `WHERE quiz_id = ? AND user_id = ? ORDER BY completed_at DESC LIMIT 10`:
      ten of the user's attempts at the quiz, latest first, none repeated, and
      none left out later than one kept. */
  function LatestAttempts(atts: seq<AttemptRow>, quizId: Id, user: Id): (r: seq<AttemptRow>)
    ensures var mine := Filter(atts, (a: AttemptRow) => a.quiz == quizId && a.user == user);
      && |r| == Min(10, |mine|)
      && (forall i, j :: 0 <= i < j < |r| ==> r[i].completedAt >= r[j].completedAt)
      && multiset(r) <= multiset(mine)
      && (forall x, y :: x in multiset(mine) - multiset(r) && y in r ==> x.completedAt <= y.completedAt)
  {
    Newest(Filter(atts, (a: AttemptRow) => a.quiz == quizId && a.user == user), 10, CompletedAtOf)
  }

  function ViewAttempt(a: AttemptRow): AttemptView {
    AttemptView(a.id, a.score, a.total, GuardedPercent(a.score, a.total), a.completedAt, a.answers)
  }

  function ViewAttempts(atts: seq<AttemptRow>): (r: seq<AttemptView>)
    ensures |r| == |atts| && forall i :: 0 <= i < |atts| ==> r[i] == ViewAttempt(atts[i])
  {
    if atts == [] then [] else [ViewAttempt(atts[0])] + ViewAttempts(atts[1..])
  }

  lemma ViewsOfRows(latest: seq<AttemptRow>, rows: seq<AttemptRow>)
    requires forall a :: a in latest ==> a in rows
    ensures forall v :: v in ViewAttempts(latest) ==> exists a :: a in rows && v == ViewAttempt(a)
  {
    var views := ViewAttempts(latest);
    forall v | v in views ensures exists a :: a in rows && v == ViewAttempt(a) {
      var k :| 0 <= k < |views| && views[k] == v;
      assert latest[k] in rows;
    }
  }

  // ---------------------------------------------------------------------------
  // Tables

  /** Ids handed out by AUTO_INCREMENT: increasing in table order and below
      the next one, for each of the three tables. */
  ghost predicate QuizIdsOk(rows: seq<QuizRow>, next: Id) {
    && (forall i, j :: 0 <= i < j < |rows| ==> rows[i].id < rows[j].id)
    && (forall i :: 0 <= i < |rows| ==> rows[i].id < next)
  }

  ghost predicate QuestionIdsOk(rows: seq<QuestionRow>, next: Id) {
    && (forall i, j :: 0 <= i < j < |rows| ==> rows[i].id < rows[j].id)
    && (forall i :: 0 <= i < |rows| ==> rows[i].id < next)
  }

  ghost predicate AttemptIdsOk(rows: seq<AttemptRow>, next: Id) {
    && (forall i, j :: 0 <= i < j < |rows| ==> rows[i].id < rows[j].id)
    && (forall i :: 0 <= i < |rows| ==> rows[i].id < next)
  }

  /** The grading loop of `submitQuiz`: one pass over the questions, counting
      right answers and collecting a result per question. */
  method Grade(qs: seq<QuestionRow>, choices: map<Id, string>) returns (score: nat, results: seq<QuestionResult>)
    ensures score == Score(qs, choices) && score <= |qs|
    ensures results == Graded(qs, choices)
  {
    score := 0;
    results := [];
    for i := 0 to |qs|
      invariant score == Score(qs[..i], choices)
      invariant results == Graded(qs[..i], choices)
    {
      var question := qs[i];
      assert qs[..i + 1][..i] == qs[..i];
      var isCorrect := AnsweredRight(choices, question);
      if isCorrect {
        score := score + 1;
      }
      results := results + [ResultFor(choices, question)];
    }
    assert qs[..|qs|] == qs;
  }

  class QuizTables {
    var quizzes: seq<QuizRow>
    var questions: seq<QuestionRow>
    var attempts: seq<AttemptRow>
    var nextQuizId: Id
    var nextQuestionId: Id
    var nextAttemptId: Id

    ghost predicate Valid()
      reads this
    {
      && (forall i :: 0 <= i < |questions| ==> questions[i].quiz < nextQuizId)
      && QuizIdsOk(quizzes, nextQuizId)
      && QuestionIdsOk(questions, nextQuestionId)
      && AttemptIdsOk(attempts, nextAttemptId)
    }

    constructor()
      ensures quizzes == [] && questions == [] && attempts == []
      ensures Valid()
    {
      quizzes, questions, attempts := [], [], [];
      nextQuizId, nextQuestionId, nextAttemptId := 1, 1, 1;
    }

    /** `INSERT INTO quizzes ...` with the next AUTO_INCREMENT id. */
    method AddQuiz(lesson: Id, title: string, description: string) returns (id: Id)
      modifies this
      ensures id == old(nextQuizId) && nextQuizId == id + 1
      ensures quizzes == old(quizzes) + [QuizRow(id, lesson, title, description)]
      ensures questions == old(questions) && attempts == old(attempts)
      ensures nextQuestionId == old(nextQuestionId) && nextAttemptId == old(nextAttemptId)
      ensures old(Valid()) ==> Valid()
    {
      id := nextQuizId;
      quizzes := quizzes + [QuizRow(id, lesson, title, description)];
      nextQuizId := nextQuizId + 1;
    }

    /** `INSERT INTO questions ...` with the next AUTO_INCREMENT id; the
        foreign key demands an existing quiz. */
    method AddQuestion(quiz: Id, text: string, a: string, b: string, c: string, d: string,
                       correct: string, explanation: string, orderIndex: int)
      modifies this
      requires quiz < nextQuizId
      ensures questions == old(questions) +
        [QuestionRow(old(nextQuestionId), quiz, text, a, b, c, d, correct, explanation, orderIndex)]
      ensures nextQuestionId == old(nextQuestionId) + 1
      ensures quizzes == old(quizzes) && attempts == old(attempts)
      ensures nextQuizId == old(nextQuizId) && nextAttemptId == old(nextAttemptId)
      ensures old(Valid()) ==> Valid()
    {
      var row := QuestionRow(nextQuestionId, quiz, text, a, b, c, d, correct, explanation, orderIndex);
      questions := questions + [row];
      nextQuestionId := nextQuestionId + 1;
    }

    /** `SELECT ... FROM questions WHERE quiz_id = ?`, in table order. */
    function QuestionsOf(quizId: Id): (r: seq<QuestionRow>)
      reads this
      ensures forall q :: q in r <==> q in questions && q.quiz == quizId
    {
      Filter(questions, (q: QuestionRow) => q.quiz == quizId)
    }

    /** `getQuiz`: the quiz and its questions by `order_index`, every correct
        answer and explanation withheld. */
    function GetQuiz(id: Id): (r: Reply<QuizView>)
      reads this
      ensures r.Ok? <==> exists i :: 0 <= i < |quizzes| && quizzes[i].id == id
      ensures !r.Ok? ==> r == Err(NotFound, "Quiz not found")
      ensures r.Ok? ==> r.body.quiz in quizzes && r.body.quiz.id == id
      ensures r.Ok? ==> exists s :: && SortedBy(s, OrderKey)
                                    && multiset(s) == multiset(QuestionsOf(id))
                                    && r.body.questions == Publics(s)
    {
      match First(quizzes, (q: QuizRow) => q.id == id)
      case None => Err(NotFound, "Quiz not found")
      case Some(quiz) =>
        var sorted := SortBy(QuestionsOf(id), OrderKey);
        Ok(QuizView(quiz, Publics(sorted)))
    }

    /** `SELECT id FROM quizzes WHERE lesson_id = ?`, first row. */
    function QuizOfLesson(lesson: Id): (r: Option<QuizRow>)
      reads this
      ensures r.None? <==> forall i :: 0 <= i < |quizzes| ==> quizzes[i].lesson != lesson
      ensures r.Some? ==> r.value in quizzes && r.value.lesson == lesson
    {
      First(quizzes, (q: QuizRow) => q.lesson == lesson)
    }

    /** `SELECT lesson_id FROM quizzes WHERE id = ?`. */
    function LessonOfQuiz(quizId: Id): (r: Option<Id>)
      reads this
      ensures r.Some? <==> exists i :: 0 <= i < |quizzes| && quizzes[i].id == quizId
      ensures r.Some? ==> exists i :: 0 <= i < |quizzes| && quizzes[i].id == quizId && quizzes[i].lesson == r.value
    {
      match First(quizzes, (q: QuizRow) => q.id == quizId)
      case None => None
      case Some(q) => Some(q.lesson)
    }

    /** `INSERT INTO quiz_attempts ...` with the next AUTO_INCREMENT id. */
    method RecordAttempt(user: Id, quizId: Id, score: nat, total: nat, choices: map<Id, string>, now: int)
      modifies this
      ensures attempts == old(attempts) + [AttemptRow(old(nextAttemptId), user, quizId, score, total, choices, now)]
      ensures nextAttemptId == old(nextAttemptId) + 1
      ensures quizzes == old(quizzes) && questions == old(questions)
      ensures nextQuizId == old(nextQuizId) && nextQuestionId == old(nextQuestionId)
      ensures old(Valid()) ==> Valid()
    {
      var attempt := AttemptRow(nextAttemptId, user, quizId, score, total, choices, now);
      attempts := attempts + [attempt];
      nextAttemptId := nextAttemptId + 1;
    }

    /** `submitQuiz`: grade the answers against the quiz's questions in table
        order; for a signed-in user record the attempt and, at 80% or more,
        mark the quiz's lesson completed. */
    method SubmitQuiz(quizId: Id, answers: Answers, user: Option<Id>, now: int, progress: ProgressTable)
      returns (reply: Reply<Submission>)
      modifies this, progress
      ensures !answers.Given? ==> reply == Err(BadRequest, "Answers are required")
      ensures answers.Given? && old(QuestionsOf(quizId)) == [] ==> reply == Err(NotFound, "Quiz not found")
      ensures answers.Given? && old(QuestionsOf(quizId)) != [] ==> reply.Ok?
      ensures reply.Ok? ==> reply.body.score == Score(old(QuestionsOf(quizId)), answers.choices)
      ensures reply.Ok? ==> reply.body.totalQuestions == |old(QuestionsOf(quizId))| > 0
      ensures reply.Ok? ==> reply.body.percentage == RoundedPercent(reply.body.score, reply.body.totalQuestions)
      ensures reply.Ok? ==> reply.body.results == Graded(old(QuestionsOf(quizId)), answers.choices)
      ensures quizzes == old(quizzes) && questions == old(questions)
      ensures reply.Ok? && user.Some? ==> attempts == old(attempts) + [AttemptRow(old(nextAttemptId), user.value, quizId,
                                                                         reply.body.score, reply.body.totalQuestions,
                                                                         answers.choices, now)]
      ensures !(reply.Ok? && user.Some?) ==> attempts == old(attempts) && nextAttemptId == old(nextAttemptId)
      ensures nextQuizId == old(nextQuizId) && nextQuestionId == old(nextQuestionId)
      ensures reply.Ok? && user.Some? && Passed(reply.body.score, reply.body.totalQuestions) && LessonOfQuiz(quizId).Some? ==>
        progress.rows == MarkedCompleted(old(progress.rows), user.value, LessonOfQuiz(quizId).value, now)
      ensures !(reply.Ok? && user.Some? && Passed(reply.body.score, reply.body.totalQuestions) && LessonOfQuiz(quizId).Some?) ==>
        progress.rows == old(progress.rows)
      ensures old(Valid()) ==> Valid()
      ensures old(progress.Valid()) ==> progress.Valid()
    {
      if !answers.Given? {
        return Err(BadRequest, "Answers are required");
      }
      var qs := QuestionsOf(quizId);
      if qs == [] {
        return Err(NotFound, "Quiz not found");
      }
      var score, results := Grade(qs, answers.choices);
      if user.Some? {
        RecordAttempt(user.value, quizId, score, |qs|, answers.choices, now);
        if Passed(score, |qs|) {
          var quizInfo := LessonOfQuiz(quizId);
          if quizInfo.Some? {
            progress.MarkCompleted(user.value, quizInfo.value, now);
          }
        }
      }
      reply := Ok(Submission(score, |qs|, RoundedPercent(score, |qs|), results));
    }

    /** The user's attempts joined with their quiz and lesson, in table
        order: what `getQuizHistory` sorts and limits. */
    function JoinedHistory(u: Id, lessons: seq<LessonRow>): seq<HistoryEntry>
      reads this
    {
      JoinAttempts(Filter(attempts, (a: AttemptRow) => a.user == u), quizzes, lessons)
    }

    /** `getQuizHistory`: the user's 50 latest attempts with quiz and lesson
        titles. */
    function GetQuizHistory(user: Option<Id>, lessons: seq<LessonRow>): (r: Reply<seq<HistoryEntry>>)
      reads this
      ensures user.None? <==> r == Err(Unauthorized, "Authentication required")
      ensures user.Some? ==> r.Ok?
      ensures r.Ok? ==> |r.body| == Min(50, |JoinedHistory(user.value, lessons)|)
      ensures r.Ok? ==> forall i, j :: 0 <= i < j < |r.body| ==> r.body[i].completedAt >= r.body[j].completedAt
      ensures r.Ok? ==> forall e :: e in r.body ==>
        exists a :: a in attempts && a.user == user.value && a.id == e.id && a.quiz == e.quizId
          && a.score == e.score && a.total == e.totalQuestions && a.completedAt == e.completedAt
          && e.percentage == GuardedPercent(a.score, a.total)
      ensures r.Ok? ==> multiset(r.body) <= multiset(JoinedHistory(user.value, lessons))
      ensures r.Ok? ==> forall x, y ::
        x in multiset(JoinedHistory(user.value, lessons)) - multiset(r.body) && y in r.body ==> x.completedAt <= y.completedAt
    {
      match user
      case None => Err(Unauthorized, "Authentication required")
      case Some(u) =>
        Ok(Newest(JoinedHistory(u, lessons), 50, EntryTime))
    }

    /** `getQuizAttempts`: the user's 10 latest attempts at one quiz. */
    function GetQuizAttempts(quizId: Id, user: Option<Id>): (r: Reply<seq<AttemptView>>)
      reads this
      ensures user.None? <==> r == Err(Unauthorized, "Authentication required")
      ensures user.Some? ==> r.Ok?
      ensures r.Ok? ==> r.body == ViewAttempts(LatestAttempts(attempts, quizId, user.value))
      ensures r.Ok? ==> |r.body| == Min(10, |Filter(attempts, (a: AttemptRow) => a.quiz == quizId && a.user == user.value)|)
      ensures r.Ok? ==> forall i, j :: 0 <= i < j < |r.body| ==> r.body[i].completedAt >= r.body[j].completedAt
      ensures r.Ok? ==> forall v :: v in r.body ==>
        exists a :: a in attempts && a.quiz == quizId && a.user == user.value && v == ViewAttempt(a)
    {
      match user
      case None => Err(Unauthorized, "Authentication required")
      case Some(u) =>
        var latest := LatestAttempts(attempts, quizId, u);
        ViewsOfRows(latest, Filter(attempts, (a: AttemptRow) => a.quiz == quizId && a.user == u));
        Ok(ViewAttempts(latest))
    }
  }
}
