/** The lesson controller: the lesson catalogue, one lesson with its code
    lines, the per-line explanation cache in front of the explanation
    generator, and quiz generation, which reuses a lesson's quiz or stores the
    usable questions of a generated one. The two generators are parameters:
    a function result of `None` (or `GenerationFailed`) stands for a call that
    throws. */
module Lesson {
  import opened Common
  import opened Schema
  import opened Text
  import opened Progress
  import opened Quiz

  function LessonOrder(l: LessonRow): int { l.orderIndex }

  function LineOrder(l: LineRow): int { l.lineNumber }

  /** `lines.map(l => l.code_content)`. */
  function Codes(ls: seq<LineRow>): (r: seq<string>)
    ensures |r| == |ls| && forall i :: 0 <= i < |ls| ==> r[i] == ls[i].code
  {
    if ls == [] then [] else [ls[0].code] + Codes(ls[1..])
  }

  // ---------------------------------------------------------------------------
  // The context window of explainLine

  /** `lesson_id = ? AND line_number BETWEEN lo AND hi`. */
  predicate InWindow(l: LineRow, lesson: Id, lo: int, hi: int) {
    l.lesson == lesson && lo <= l.lineNumber <= hi
  }

  /** Lines of one lesson carry distinct line numbers. */
  ghost predicate NumbersDistinct(ls: seq<LineRow>) {
    forall i, j :: 0 <= i < j < |ls| && ls[i].lesson == ls[j].lesson ==> ls[i].lineNumber != ls[j].lineNumber
  }

  /** The line numbers present in a window. */
  function WindowNumbers(ls: seq<LineRow>, lesson: Id, lo: int, hi: int): set<int> {
    set l | l in ls && InWindow(l, lesson, lo, hi) :: l.lineNumber
  }

  /** With distinct numbers, a window holds one line per number. */
  lemma {:induction false} WindowCount(ls: seq<LineRow>, lesson: Id, lo: int, hi: int)
    requires NumbersDistinct(ls)
    ensures |Filter(ls, (l: LineRow) => InWindow(l, lesson, lo, hi))| == |WindowNumbers(ls, lesson, lo, hi)|
  {
    if ls != [] {
      var x, rest := ls[0], ls[1..];
      assert NumbersDistinct(rest) by {
        forall i, j | 0 <= i < j < |rest| && rest[i].lesson == rest[j].lesson
          ensures rest[i].lineNumber != rest[j].lineNumber
        {
          assert rest[i] == ls[i + 1] && rest[j] == ls[j + 1];
        }
      }
      WindowCount(rest, lesson, lo, hi);
      WindowNumbersCons(ls, lesson, lo, hi);
    }
  }

  lemma WindowNumbersCons(ls: seq<LineRow>, lesson: Id, lo: int, hi: int)
    requires ls != [] && NumbersDistinct(ls)
    ensures var x := ls[0];
      if InWindow(x, lesson, lo, hi) then
        WindowNumbers(ls, lesson, lo, hi) == {x.lineNumber} + WindowNumbers(ls[1..], lesson, lo, hi) &&
        x.lineNumber !in WindowNumbers(ls[1..], lesson, lo, hi)
      else WindowNumbers(ls, lesson, lo, hi) == WindowNumbers(ls[1..], lesson, lo, hi)
  {
    var x, rest := ls[0], ls[1..];
    assert ls == [x] + rest;
    forall l | l in rest && l.lesson == x.lesson ensures l.lineNumber != x.lineNumber {
      var j :| 0 <= j < |rest| && rest[j] == l;
      assert ls[j + 1] == l;
    }
  }

  /** A set of integers inside a five-wide range has at most five elements. */
  lemma FiveWide(s: set<int>, lo: int)
    requires forall k :: k in s ==> lo <= k <= lo + 4
    ensures |s| <= 5
  {
    var t := {lo, lo + 1, lo + 2, lo + 3, lo + 4};
    assert |t| <= 5 by {
      assert |{lo} + {lo + 1}| <= 2;
      assert |{lo, lo + 1} + {lo + 2}| <= 3;
      assert |{lo, lo + 1, lo + 2} + {lo + 3}| <= 4;
      assert |{lo, lo + 1, lo + 2, lo + 3} + {lo + 4}| <= 5;
    }
    forall k | k in s ensures k in t {
      assert k == lo || k == lo + 1 || k == lo + 2 || k == lo + 3 || k == lo + 4;
    }
    SubsetSize(s, t);
  }

  lemma SubsetSize(a: set<int>, b: set<int>)
    requires a <= b
    ensures |a| <= |b|
  {
    assert b == a + (b - a);
  }

  /** With distinct line numbers, the window around `n` holds at most five
      lines. */
  lemma WindowAtMostFive(ls: seq<LineRow>, lesson: Id, n: int)
    requires NumbersDistinct(ls)
    ensures |Filter(ls, (l: LineRow) => InWindow(l, lesson, Max(1, n - 2), n + 2))| <= 5
  {
    var lo, hi := Max(1, n - 2), n + 2;
    WindowCount(ls, lesson, lo, hi);
    var w := WindowNumbers(ls, lesson, lo, hi);
    forall k | k in w ensures n - 2 <= k <= n + 2 {
      var l :| l in ls && InWindow(l, lesson, lo, hi) && l.lineNumber == k;
    }
    FiveWide(w, n - 2);
  }

  // ---------------------------------------------------------------------------
  // Generated quizzes

  /** The options object of a generated question. */
  datatype AiOptions = AiOptions(a: Option<string>, b: Option<string>, c: Option<string>, d: Option<string>)

  /** One entry of the generated `questions` array. */
  datatype AiQuestion = AiQuestion(
    question: Option<string>, options: Option<AiOptions>,
    correctAnswer: Option<string>, explanation: Option<string>)

  /** What the quiz generator gives back: it throws (no key configured, the
      request failed, the reply is not JSON), or a JSON value without a
      `questions` array, or a list of questions. */
  datatype AiQuiz = GenerationFailed | NoQuestionList | QuestionList(items: seq<AiQuestion>)

  /** The check that decides whether a generated question is stored. */
  predicate Usable(q: AiQuestion) {
    !Falsy(q.question) && q.options.Some? && !Falsy(q.correctAnswer)
  }

  /** The stored row of a usable question; absent options become ''. */
  function RowFor(q: AiQuestion, id: Id, quiz: Id, orderIndex: int): QuestionRow
    requires Usable(q)
  {
    QuestionRow(id, quiz, q.question.value,
                OrEmpty(q.options.value.a), OrEmpty(q.options.value.b),
                OrEmpty(q.options.value.c), OrEmpty(q.options.value.d),
                q.correctAnswer.value, OrEmpty(q.explanation), orderIndex)
  }

  /** The rows the insert loop stores for a generated list, ids counted from
      `firstId`. */
  function SavedRows(items: seq<AiQuestion>, quiz: Id, firstId: Id): (r: seq<QuestionRow>)
    ensures |r| <= |items|
  {
    if items == [] then []
    else
      var n := |items| - 1;
      var before := SavedRows(items[..n], quiz, firstId);
      if Usable(items[n]) then before + [RowFor(items[n], firstId + |before|, quiz, n + 1)]
      else before
  }

  /** Each row of `r` is the row of a usable question of `items`, with
      consecutive ids from `firstId` and its list position plus one as order,
      increasing along `r`. */
  ghost predicate Shaped(items: seq<AiQuestion>, r: seq<QuestionRow>, quiz: Id, firstId: Id) {
    && (forall k :: 0 <= k < |r| ==>
         && r[k].id == firstId + k
         && 1 <= r[k].orderIndex <= |items|
         && Usable(items[r[k].orderIndex - 1])
         && r[k] == RowFor(items[r[k].orderIndex - 1], firstId + k, quiz, r[k].orderIndex))
    && (forall k, m :: 0 <= k < m < |r| ==> r[k].orderIndex < r[m].orderIndex)
  }

  /** The stored rows have that shape. */
  lemma {:induction false} SavedRowsShape(items: seq<AiQuestion>, quiz: Id, firstId: Id)
    ensures Shaped(items, SavedRows(items, quiz, firstId), quiz, firstId)
  {
    if items != [] {
      var n := |items| - 1;
      var p := items[..n];
      SavedRowsShape(p, quiz, firstId);
      var before := SavedRows(p, quiz, firstId);
      ShapedLonger(p, items, before, quiz, firstId);
      if Usable(items[n]) {
        assert SavedRows(items, quiz, firstId) == before + [RowFor(items[n], firstId + |before|, quiz, n + 1)];
        ShapedPush(items, before, quiz, firstId);
      } else {
        assert SavedRows(items, quiz, firstId) == before;
      }
    }
  }

  /** A shape over a prefix of the list is a shape over the whole list. */
  lemma ShapedLonger(p: seq<AiQuestion>, items: seq<AiQuestion>, r: seq<QuestionRow>, quiz: Id, firstId: Id)
    requires |p| <= |items| && p == items[..|p|] && Shaped(p, r, quiz, firstId)
    ensures Shaped(items, r, quiz, firstId)
  {
    forall k | 0 <= k < |r|
      ensures 1 <= r[k].orderIndex <= |items|
      ensures items[r[k].orderIndex - 1] == p[r[k].orderIndex - 1]
    {
    }
  }

  /** Appending the row of the last, usable question keeps the shape, when
      every earlier row comes from an earlier question. */
  lemma ShapedPush(items: seq<AiQuestion>, before: seq<QuestionRow>, quiz: Id, firstId: Id)
    requires items != [] && Usable(items[|items| - 1])
    requires Shaped(items, before, quiz, firstId)
    requires forall k :: 0 <= k < |before| ==> before[k].orderIndex < |items|
    ensures var n := |items| - 1;
      Shaped(items, before + [RowFor(items[n], firstId + |before|, quiz, n + 1)], quiz, firstId)
  {
    var n := |items| - 1;
    var r := before + [RowFor(items[n], firstId + |before|, quiz, n + 1)];
    forall k | 0 <= k < |before| ensures r[k] == before[k] {}
  }

  lemma SavedStep(items: seq<AiQuestion>, i: nat, quiz: Id, firstId: Id)
    requires i < |items|
    ensures var before := SavedRows(items[..i], quiz, firstId);
      SavedRows(items[..i + 1], quiz, firstId) ==
        if Usable(items[i]) then before + [RowFor(items[i], firstId + |before|, quiz, i + 1)] else before
  {
    assert items[..i + 1][..i] == items[..i];
  }

  /** As many questions are stored as the list has usable ones. */
  lemma {:induction false} SavedCount(items: seq<AiQuestion>, quiz: Id, firstId: Id)
    ensures |SavedRows(items, quiz, firstId)| == |Filter(items, Usable)|
  {
    if items != [] {
      var n := |items| - 1;
      SavedCount(items[..n], quiz, firstId);
      assert items == items[..n] + [items[n]];
      FilterAppend(items[..n], [items[n]], Usable);
    }
  }

  /** Every usable question is stored, at its position in the list plus one. */
  lemma {:induction false} SavedEveryUsable(items: seq<AiQuestion>, quiz: Id, firstId: Id, i: nat)
    requires i < |items| && Usable(items[i])
    ensures exists k :: 0 <= k < |SavedRows(items, quiz, firstId)| && SavedRows(items, quiz, firstId)[k].orderIndex == i + 1
  {
    var n := |items| - 1;
    var p := items[..n];
    var before := SavedRows(p, quiz, firstId);
    var r := SavedRows(items, quiz, firstId);
    if i < n {
      assert p[i] == items[i];
      SavedEveryUsable(p, quiz, firstId, i);
      var k :| 0 <= k < |before| && before[k].orderIndex == i + 1;
      assert r[k] == before[k];
    } else {
      assert r[|before|].orderIndex == i + 1;
    }
  }

  /** The reply of quiz generation: a quiz that already existed, with its
      stored questions, or a new one with the generated list as received. */
  datatype GeneratedQuiz =
    | Existing(id: Id, lessonId: Id, questions: seq<QuestionRow>)
    | Generated(id: Id, lessonId: Id, items: seq<AiQuestion>)

  datatype LessonView = LessonView(lesson: LessonRow, lines: seq<LineRow>)

  class LessonTables {
    var lessons: seq<LessonRow>
    var lines: seq<LineRow>
    /** `line_explanations`, keyed by its unique `lesson_line_id`. */
    var explanations: map<Id, string>

    constructor(lessons: seq<LessonRow>, lines: seq<LineRow>)
      ensures this.lessons == lessons && this.lines == lines && explanations == map[]
    {
      this.lessons := lessons;
      this.lines := lines;
      explanations := map[];
    }

    /** `getAllLessons`: every lesson, by `order_index`. */
    function GetAllLessons(): (r: seq<LessonRow>)
      reads this
      ensures SortedBy(r, LessonOrder)
      ensures multiset(r) == multiset(lessons)
    {
      SortBy(lessons, LessonOrder)
    }

    function LessonById(id: Id): (r: Option<LessonRow>)
      reads this
      ensures r.None? <==> forall i :: 0 <= i < |lessons| ==> lessons[i].id != id
      ensures r.Some? ==> r.value in lessons && r.value.id == id
    {
      First(lessons, (l: LessonRow) => l.id == id)
    }

    /** The lines of a lesson by `line_number`. */
    function LessonLines(id: Id): (r: seq<LineRow>)
      reads this
      ensures SortedBy(r, LineOrder)
      ensures multiset(r) == multiset(Filter(lines, (l: LineRow) => l.lesson == id))
      ensures forall l :: l in r <==> l in lines && l.lesson == id
    {
      var mine := Filter(lines, (l: LineRow) => l.lesson == id);
      SortByKeepsRows(mine, LineOrder);
      SortBy(mine, LineOrder)
    }

    /** `getLesson`: the lesson with its lines; a signed-in user's visit is
        recorded as in `trackLessonAccess`. */
    method GetLesson(id: Id, user: Option<Id>, now: int, progress: ProgressTable) returns (reply: Reply<LessonView>)
      modifies progress
      ensures LessonById(id).None? ==> reply == Err(NotFound, "Lesson not found")
      ensures LessonById(id).Some? ==> reply == Ok(LessonView(LessonById(id).value, LessonLines(id)))
      ensures reply.Ok? && user.Some? ==> progress.rows == Touched(old(progress.rows), user.value, id, now)
      ensures !(reply.Ok? && user.Some?) ==> progress.rows == old(progress.rows)
      ensures forall u, l :: Completed(progress.rows, u, l) <==> old(Completed(progress.rows, u, l))
      ensures old(progress.Valid()) ==> progress.Valid()
    {
      var lesson := LessonById(id);
      if lesson.None? {
        return Err(NotFound, "Lesson not found");
      }
      var ls := LessonLines(id);
      if user.Some? {
        progress.Touch(user.value, id, now);
      }
      reply := Ok(LessonView(lesson.value, ls));
    }

    /** `SELECT ... FROM lesson_lines WHERE id = ? AND lesson_id = ?`. */
    function LineOf(lessonId: Id, lineId: Id): (r: Option<LineRow>)
      reads this
      ensures r.None? <==> forall i :: 0 <= i < |lines| ==> !(lines[i].id == lineId && lines[i].lesson == lessonId)
      ensures r.Some? ==> r.value in lines && r.value.id == lineId && r.value.lesson == lessonId
    {
      First(lines, (l: LineRow) => l.id == lineId && l.lesson == lessonId)
    }

    /** The lines around line number `n` of a lesson, by line number. */
    function ContextLines(lessonId: Id, n: int): (r: seq<LineRow>)
      reads this
      ensures SortedBy(r, LineOrder)
      ensures forall l :: l in r <==> l in lines && InWindow(l, lessonId, Max(1, n - 2), n + 2)
      ensures |r| == |Filter(lines, (l: LineRow) => InWindow(l, lessonId, Max(1, n - 2), n + 2))|
    {
      var window := Filter(lines, (l: LineRow) => InWindow(l, lessonId, Max(1, n - 2), n + 2));
      SortByKeepsRows(window, LineOrder);
      SortBy(window, LineOrder)
    }

    /** The context sent with a line: its neighbours joined by newlines. */
    function Context(line: LineRow): string
      reads this
    {
      Join(Codes(ContextLines(line.lesson, line.lineNumber)), "\n")
    }

    /** The window holds the line itself (line numbers start at 1), and at most
        five lines when the lesson's line numbers are distinct. */
    lemma ContextWindow(line: LineRow)
      requires line in lines
      ensures line.lineNumber >= 1 ==> line in ContextLines(line.lesson, line.lineNumber)
      ensures NumbersDistinct(lines) ==> |ContextLines(line.lesson, line.lineNumber)| <= 5
    {
      if NumbersDistinct(lines) {
        WindowAtMostFive(lines, line.lesson, line.lineNumber);
      }
    }

    /** `explainLine`: a cached explanation is returned as it is; otherwise
        the generator is asked with the line and its context, and its answer is
        cached under the line id and returned. */
    method ExplainLine(lessonId: Id, lineId: Option<Id>, explain: (string, string) -> Option<string>)
      returns (reply: Reply<string>)
      modifies this
      ensures lessons == old(lessons) && lines == old(lines)
      ensures lineId.None? || lineId.value == 0 ==> reply == Err(BadRequest, "Line ID is required")
      ensures lineId.Some? && lineId.value != 0 && LineOf(lessonId, lineId.value).None? ==>
        reply == Err(NotFound, "Line not found")
      ensures lineId.Some? && lineId.value != 0 && LineOf(lessonId, lineId.value).Some? && lineId.value in old(explanations) ==>
        reply == Ok(old(explanations)[lineId.value])
      ensures lineId.Some? && lineId.value != 0 && LineOf(lessonId, lineId.value).Some? && lineId.value !in old(explanations) ==>
        var line := LineOf(lessonId, lineId.value).value;
        reply == (match explain(line.code, Context(line))
                  case None => Err(ServerError, "Failed to generate explanation")
                  case Some(e) => Ok(e))
      ensures reply.Ok? ==> lineId.Some? && explanations == old(explanations)[lineId.value := reply.body]
      ensures reply.Err? ==> explanations == old(explanations)
    {
      if lineId.None? || lineId.value == 0 {
        return Err(BadRequest, "Line ID is required");
      }
      var id := lineId.value;
      var found := LineOf(lessonId, id);
      if found.None? {
        return Err(NotFound, "Line not found");
      }
      var line := found.value;
      if id in explanations {
        return Ok(explanations[id]);
      }
      var context := Join(Codes(ContextLines(lessonId, line.lineNumber)), "\n");
      var explanation := explain(line.code, context);
      if explanation.None? {
        return Err(ServerError, "Failed to generate explanation");
      }
      explanations := explanations[id := explanation.value];
      reply := Ok(explanation.value);
    }

    /** `generateQuizForLesson`. */
    method GenerateQuizForLesson(lessonId: Id, quizTables: QuizTables, generate: (string, string) -> AiQuiz)
      returns (reply: Reply<GeneratedQuiz>)
      requires quizTables.Valid()
      modifies quizTables
      ensures quizTables.Valid()
      ensures quizTables.attempts == old(quizTables.attempts)
      ensures old(quizTables.QuizOfLesson(lessonId)).Some? ==>
        reply == Ok(Existing(old(quizTables.QuizOfLesson(lessonId)).value.id, lessonId,
                             SortBy(old(quizTables.QuestionsOf(quizTables.QuizOfLesson(lessonId).value.id)), OrderKey)))
      ensures old(quizTables.QuizOfLesson(lessonId)).None? && LessonById(lessonId).None? ==>
        reply == Err(NotFound, "Lesson not found")
      ensures old(quizTables.QuizOfLesson(lessonId)).Some? || LessonById(lessonId).None? ==>
        quizTables.quizzes == old(quizTables.quizzes) && quizTables.questions == old(quizTables.questions)
      ensures old(quizTables.QuizOfLesson(lessonId)).None? && LessonById(lessonId).Some? ==>
        GeneratedAs(quizTables, old(quizTables.quizzes), old(quizTables.questions),
                    old(quizTables.nextQuizId), old(quizTables.nextQuestionId), LessonById(lessonId).value,
                    generate(Join(Codes(LessonLines(lessonId)), "\n"), LessonById(lessonId).value.title), reply)
    {
      var existing := quizTables.QuizOfLesson(lessonId);
      if existing.Some? {
        var quizId := existing.value.id;
        return Ok(Existing(quizId, lessonId, SortBy(quizTables.QuestionsOf(quizId), OrderKey)));
      }
      var lesson := LessonById(lessonId);
      if lesson.None? {
        return Err(NotFound, "Lesson not found");
      }
      var lessonContent := Join(Codes(LessonLines(lessonId)), "\n");
      var lessonTitle := lesson.value.title;
      var quizData := generate(lessonContent, lessonTitle);
      if quizData.GenerationFailed? {
        return Err(ServerError, "Failed to generate quiz");
      }
      var quizId := quizTables.AddQuiz(lessonId, "Quiz: " + lessonTitle, "Test your knowledge of " + lessonTitle);
      NewQuizFound(quizTables, old(quizTables.quizzes), quizTables.quizzes[|quizTables.quizzes| - 1]);
      if quizData.NoQuestionList? {
        NoQuestionsYet(quizTables, quizId);
        return Err(ServerError, "Failed to generate quiz");
      }
      SaveQuestions(quizTables, quizId, quizData.items);
      reply := Ok(Generated(quizId, lessonId, quizData.items));
    }
  }

  /** What quiz generation leaves behind once the lesson has no quiz yet:
      a failed generator changes nothing; otherwise the new quiz row stays,
      even when the reply holds no question list (later calls then return it
      as the lesson's quiz, with no questions); a list has its usable
      questions stored. */
  ghost predicate GeneratedAs(t: QuizTables, quizzes: seq<QuizRow>, questions: seq<QuestionRow>,
                              quizId: Id, firstQuestionId: Id, lesson: LessonRow,
                              data: AiQuiz, reply: Reply<GeneratedQuiz>)
    reads t
  {
    var newQuiz := QuizRow(quizId, lesson.id, "Quiz: " + lesson.title, "Test your knowledge of " + lesson.title);
    match data
    case GenerationFailed =>
      && reply == Err(ServerError, "Failed to generate quiz")
      && t.quizzes == quizzes && t.questions == questions
    case NoQuestionList =>
      && reply == Err(ServerError, "Failed to generate quiz")
      && t.quizzes == quizzes + [newQuiz] && t.questions == questions
      && t.QuizOfLesson(lesson.id) == Some(newQuiz) && t.QuestionsOf(quizId) == []
    case QuestionList(items) =>
      && reply == Ok(Generated(quizId, lesson.id, items))
      && t.quizzes == quizzes + [newQuiz]
      && t.questions == questions + SavedRows(items, quizId, firstQuestionId)
  }

  /** The insert loop of `generateQuizForLesson`: questions lacking text,
      options or correct answer are skipped, the others stored with their
      list position plus one as `order_index`. */
  method SaveQuestions(quizTables: QuizTables, quizId: Id, items: seq<AiQuestion>)
    requires quizTables.Valid() && quizId < quizTables.nextQuizId
    modifies quizTables
    ensures quizTables.questions == old(quizTables.questions) + SavedRows(items, quizId, old(quizTables.nextQuestionId))
    ensures quizTables.quizzes == old(quizTables.quizzes) && quizTables.attempts == old(quizTables.attempts)
    ensures quizTables.nextQuizId == old(quizTables.nextQuizId)
    ensures quizTables.Valid()
  {
    ghost var firstId := quizTables.nextQuestionId;
    ghost var saved: seq<QuestionRow> := [];
    for i := 0 to |items|
      invariant saved == SavedRows(items[..i], quizId, firstId)
      invariant quizTables.questions == old(quizTables.questions) + saved
      invariant quizTables.nextQuestionId == firstId + |saved|
      invariant quizTables.quizzes == old(quizTables.quizzes) && quizTables.attempts == old(quizTables.attempts)
      invariant quizTables.nextQuizId == old(quizTables.nextQuizId)
      invariant quizTables.Valid()
    {
      var q := items[i];
      SavedStep(items, i, quizId, firstId);
      if Falsy(q.question) || q.options.None? || Falsy(q.correctAnswer) {
        continue;
      }
      SaveQuestion(quizTables, quizId, q, i + 1);
      ghost var row := RowFor(q, firstId + |saved|, quizId, i + 1);
      AppendRow(old(quizTables.questions), saved, row);
      saved := saved + [row];
    }
    assert items[..|items|] == items;
  }

  lemma AppendRow(base: seq<QuestionRow>, saved: seq<QuestionRow>, row: QuestionRow)
    ensures base + saved + [row] == base + (saved + [row])
  {
  }

  /** One `INSERT INTO questions` of the loop, for a usable question. */
  method SaveQuestion(quizTables: QuizTables, quizId: Id, q: AiQuestion, orderIndex: int)
    requires quizTables.Valid() && quizId < quizTables.nextQuizId && Usable(q)
    modifies quizTables
    ensures quizTables.questions == old(quizTables.questions) + [RowFor(q, old(quizTables.nextQuestionId), quizId, orderIndex)]
    ensures quizTables.nextQuestionId == old(quizTables.nextQuestionId) + 1
    ensures quizTables.quizzes == old(quizTables.quizzes) && quizTables.attempts == old(quizTables.attempts)
    ensures quizTables.nextQuizId == old(quizTables.nextQuizId)
    ensures quizTables.Valid()
  {
    quizTables.AddQuestion(quizId, q.question.value,
                           OrEmpty(q.options.value.a), OrEmpty(q.options.value.b),
                           OrEmpty(q.options.value.c), OrEmpty(q.options.value.d),
                           q.correctAnswer.value, OrEmpty(q.explanation), orderIndex);
  }

  /** A quiz appended for a lesson that had none is the one later lookups find. */
  lemma NewQuizFound(t: QuizTables, quizzes: seq<QuizRow>, row: QuizRow)
    requires forall i :: 0 <= i < |quizzes| ==> quizzes[i].lesson != row.lesson
    requires t.quizzes == quizzes + [row]
    ensures t.QuizOfLesson(row.lesson) == Some(row)
  {
    assert t.quizzes[|quizzes|] == row;
  }

  /** A quiz id no question refers to has no questions. */
  lemma NoQuestionsYet(t: QuizTables, quiz: Id)
    requires forall i :: 0 <= i < |t.questions| ==> t.questions[i].quiz < quiz
    ensures t.QuestionsOf(quiz) == []
  {
    forall x | x in t.questions ensures x.quiz < quiz {
      var i :| 0 <= i < |t.questions| && t.questions[i] == x;
    }
    FilterNone(t.questions, (q: QuestionRow) => q.quiz == quiz);
  }
}
