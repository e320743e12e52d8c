/** Rows of the MySQL tables that more than one controller reads: lessons and
    their code lines, quizzes, their questions and the recorded attempts.
    Timestamps (`completed_at`, `last_accessed_at`) are integers that grow
    with the clock. */
module Schema {
  import opened Common

  /** A row of `lessons`. */
  datatype LessonRow = LessonRow(id: Id, title: string, description: string, orderIndex: int, difficulty: string)

  /** A row of `lesson_lines`: one line of a lesson's code. */
  datatype LineRow = LineRow(id: Id, lesson: Id, lineNumber: int, code: string, lineType: string)

  /** A row of `quizzes`. */
  datatype QuizRow = QuizRow(id: Id, lesson: Id, title: string, description: string)

  /** A row of `questions`; `correct` is the letter of the right option. */
  datatype QuestionRow = QuestionRow(
    id: Id, quiz: Id, text: string,
    a: string, b: string, c: string, d: string,
    correct: string, explanation: string, orderIndex: int)

  /** A row of `quiz_attempts`. The `answers` column holds the submitted
      answers as JSON text; the model keeps the decoded object, question id to
      chosen letter. */
  datatype AttemptRow = AttemptRow(
    id: Id, user: Id, quiz: Id, score: nat, total: nat,
    answers: map<Id, string>, completedAt: int)
}
