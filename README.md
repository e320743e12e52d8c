# Luno: a model of the learning server and its editor

Luno is a web application that teaches HTML and CSS. A lesson is a sequence of
code lines. A reader can ask an AI service to explain a line or to write a quiz
for the lesson. Quizzes are graded on the server, and passing one (80% or more)
marks the lesson completed. A daily streak, daily challenges and badges reward
regular activity. In the browser, a code editor splits a lesson's document into
an HTML buffer and a CSS buffer and joins them again after every edit.

This Dafny project models the logic of those parts:

- `Common` (common.dfy): the HTTP reply shape, JavaScript truthiness,
  `WHERE` filters, the first row of a `LIMIT 1` query, `ORDER BY` (a stable
  insertion sort), the newest-first `ORDER BY ... DESC LIMIT n`, and
  `Math.round` of a percentage.
- `Text` (text.dfy): JavaScript's `split('\n')`, `join('\n')`, `includes`,
  `indexOf`, `trim` and `String.prototype.replace` with a string pattern. The
  replacement string's `$` patterns are expanded.
- `Editor` (editor.dfy): the split loop, `combineCode`, and the state of the
  two editor components. It proves the round trip that every edit goes
  through.
- `Streak` and `StreakHistory` (streak.dfy, streak_history.dfy): the streak,
  activity, challenge and badge tables and their handlers. `StreakHistory`
  proves what a streak row means: the replay of a sequence of active days
  yields the current run, the longest run and the number of distinct days.
- `StreakWidget` (streak_widget.dfy): the flame tiers, the next milestone and
  the challenge button guard of the dashboard card.
- `Schema` (schema.dfy): the rows shared by the lesson, quiz and progress
  handlers.
- `Progress` (progress.dfy): the `user_progress` upserts, the progress map
  and the statistics.
- `Quiz` (quiz.dfy): quiz retrieval with the answers hidden, grading,
  attempts, completion, and the history and attempt lists.
- `Lesson` (lesson.dfy): the lesson catalogue, the line explanation cache and
  its context window, and quiz generation.
- `Auth` (auth.dfy): signup, login and the profile lookup.

Each table that a handler updates is a field of a class (`StreakTables`,
`ProgressTable`, `QuizTables`, `LessonTables`, `UserTable`, and `EditorPane`
for the editor state). The handlers are methods whose postconditions state the
whole new state through specification functions. The properties are proved
about those functions. Dates are integer day numbers (yesterday is
`today - 1`). `NOW()` is an integer parameter. The signed-in user is an
`Option<Id>`, and `None` means the request carried no valid token. The AI
services, password hashing, hash comparison and token signing are function
parameters.

## Model

| member | source | states |
|---|---|---|
| Text.JoinLines | client/src/components/EditorModal.jsx:15-37 | joining the lines of `split('\n')` with `'\n'` gives the text back |
| Text.JsReplace | client/src/components/EditorModal.jsx:60 | replace-first with a string pattern leaves the text unchanged when the pattern is absent |
| Text.TrimEmptyIffBlank | client/src/components/EditorModal.jsx:58 | `css.trim()` is empty exactly when every character is JavaScript whitespace |
| Editor.SplitCode | client/src/components/EditorModal.jsx:12-39 | the `forEach` loop with `inStyleTag` computes the HTML and CSS texts that `SplitDocument` defines |
| Editor.SplitInterleaves | client/src/components/EditorPreview.jsx:19-33 | lines with a style tag go to neither output; every other line goes to exactly one output, and each output keeps the document order |
| Editor.InterleavingPartitions | client/src/components/EditorModal.jsx:20-34 | an interleaving splits the untagged lines as a multiset and by count |
| Editor.InStyleIffLastTagOpens | client/src/components/EditorModal.jsx:18-33 | style mode is on exactly when the last tag line so far contains `<style>`, which is tested before `</style>` |
| Editor.NoTagsAllHtml | client/src/components/EditorModal.jsx:14-37 | a document without tag lines splits into itself and empty CSS |
| Editor.CombineBlank | client/src/components/EditorModal.jsx:58 | blank CSS returns the HTML unchanged |
| Editor.CombineAppends | client/src/components/EditorModal.jsx:59-61 | without `</head>` the style block is appended after a newline |
| Editor.CombineInsertsBeforeFirstHead | client/src/components/EditorPreview.jsx:56-62 | with `</head>` (and CSS free of `$`) the indented style block is inserted just before its first occurrence; the rest is unchanged |
| Editor.RoundTrip | client/src/components/EditorModal.jsx:41-63 | splitting `combineCode(h, c)` gives `(h, c)` back when `c` is not blank, no line of `h` or `c` has a style tag, a first `</head>` in `h` starts a line, and `c` has no `$` when `h` has `</head>` |
| Editor.DollarBreaksRoundTrip | client/src/components/EditorModal.jsx:60 | CSS `$&` before a leading `</head>` reads back as `</head>`: the `$` condition of the round trip is needed |
| Editor.CombineBlankOrSafe | client/src/components/EditorModal.jsx:57-63 | blank CSS is not inserted, and under the round trip conditions the combined document is not empty and splits back |
| Editor.EditorPane.SyncFromCode | client/src/components/EditorModal.jsx:12-39 | an empty `code` leaves both buffers unchanged; any other `code` sets them to its split |
| Editor.EditorPane.Reset | client/src/components/EditorModal.jsx:73-100 | once confirmed, the buffers become the split of the current `code` prop, even when it is empty |
| Editor.EditorPane.HtmlChanged | client/src/components/EditorPreview.jsx:40-46 | a null value counts as `''`; the preview key goes up by one; the listener receives `combineCode(value, css)` |
| Editor.EditorPane.CssChanged | client/src/components/EditorModal.jsx:49-55 | the same for the CSS buffer |
| Editor.EditorPane.PreviewContent | client/src/components/EditorModal.jsx:69-71 | the preview document is the HTML itself for blank CSS, and it splits back into the buffers under the round trip conditions |
| Editor.EditorPane.EditHtml | client/src/pages/LessonViewer.jsx:165-166 | an HTML edit hands `combineCode` to the viewer's `setCode` and bumps the preview key; the buffers become the split of that document unless it is empty or equals the old `code`, so under the round trip conditions they end as the edit left them |
| Editor.ResetAfterEdit | client/src/components/EditorModal.jsx:73-100 | a confirmed reset after an edit splits the edited document, so under the round trip conditions it leaves the edited buffers rather than restoring the lesson |
| Editor.EditorPane.EditCss | client/src/pages/LessonViewer.jsx:165-166 | the same for a CSS edit, with the old HTML |
| Streak.Advance | server/controllers/streakController.js:204-253 | the first activity creates (1, 1, today, 1); the same day changes nothing; the next day adds one to current and total; a gap sets current to 1 and adds one to total; longest becomes max(current, old longest), never decreases and stays at least current |
| Streak.ResetOnRead | server/controllers/streakController.js:36-46 | after a gap of more than one day, the read sets current to 0 and the last date to today; otherwise the row is unchanged |
| Streak.ResetThenSameDayActivity | server/controllers/streakController.js:231-233 | after such a reset, an activity the same day leaves current at 0 and does not count the day in the total |
| Streak.DueBadges | server/controllers/streakController.js:271-297 | exactly the unheld badges whose thresholds are met are due, each once |
| Streak.HeldAfterInsert | server/controllers/streakController.js:289-295 | inserting badge rows for a user adds exactly those kinds to what that user holds and nothing to other users |
| Streak.SecondCheckAwardsNothing | server/controllers/streakController.js:258-302 | after the due badges are inserted, a second check awards nothing |
| Streak.InsertDueKeepsUnique | server/controllers/streakController.js:307-313 | inserting the due badges never duplicates a (user, badge) pair |
| Streak.StoredActivityId | server/controllers/streakController.js:112-126 | an absent or zero activity id is stored as NULL |
| Streak.ChallengeType | server/controllers/streakController.js:338-344 | the random pick selects the lesson, quiz or practice challenge type |
| Streak.StreakTables.HasBadge | server/controllers/streakController.js:307-313 | true exactly when a badge row for the user and kind exists |
| Streak.StreakTables.UpdateStreak | server/controllers/streakController.js:204-253 | the user's row becomes `Advance` of the old one; nothing else changes |
| Streak.StreakTables.CollectDue | server/controllers/streakController.js:268-287 | the five `hasBadge`-guarded threshold tests collect exactly the due badges, in the order the source tests them |
| Streak.StreakTables.CheckBadgeUnlocks | server/controllers/streakController.js:258-302 | the due badges are inserted, none for a user without a streak row; the held set grows by exactly the awarded kinds |
| Streak.StreakTables.RecordActivity | server/controllers/streakController.js:97-136 | 401 without a user and 400 without a type, with no writes; a stored duplicate with a non-null id is acknowledged with no writes; otherwise, and only then, one activity is stored, the streak advanced and `Recorded` with the given points (0 when absent) returned |
| Streak.StreakTables.CompleteChallenge | server/controllers/streakController.js:141-199 | 401, then 404 for an unknown challenge; an already completed challenge causes no writes; every authenticated request for a known challenge succeeds; otherwise one completion and one activity are stored, the streak advanced and the due badges inserted |
| Streak.StreakTables.GetUserStreak | server/controllers/streakController.js:6-92 | a missing row reads as zeros; the reset after a gap is written back; the reply carries today's count, today's challenge and the user's badges newest first |
| Streak.StreakTables.TodayChallenge | server/controllers/streakController.js:55-64 | the first challenge dated today, with whether the user has completed it |
| Streak.StreakTables.GetTodayChallenge | server/controllers/streakController.js:318-380 | an existing challenge for today is returned untouched; otherwise one 10-point beginner challenge for the picked lesson is created; nothing is created without a lesson |
| Streak.Reverse | server/controllers/streakController.js:66-70 | newest-first order of the badge rows of a user; rows with the same `earned_at` (one check's badges) come in reverse insertion order, which SQL leaves unspecified |
| StreakHistory.Replay | server/controllers/streakController.js:204-253 | replaying the active days yields a row whose last date is the last day and which keeps current ≤ longest ≤ total |
| StreakHistory.ReplaySummarises | server/controllers/streakController.js:222-248 | for days in time order, the replayed row's current is the run ending on the last day, longest is the longest run ever, and total is the number of distinct days |
| StreakHistory.SameDay | server/controllers/streakController.js:231-233 | a repeated day keeps the summary |
| StreakHistory.NewDay | server/controllers/streakController.js:222-242 | a later day extends the summary |
| StreakWidget.StreakEmoji | client/src/components/StreakWidget.jsx:26-31 | one flame per threshold reached among 3, 7 and 30 days, and a muscle below 3 |
| StreakWidget.FlamesMonotone | client/src/components/StreakWidget.jsx:26-31 | a longer streak never shows fewer flames |
| StreakWidget.NextBadge | client/src/components/StreakWidget.jsx:33-44 | the smallest of the 7, 30 and 100 day milestones above the current streak; none from 100 days up |
| StreakWidget.RemainingDays | client/src/components/StreakWidget.jsx:80 | when a next badge exists, at least one day is missing |
| StreakWidget.MilestonesAreStreakBadges | client/src/components/StreakWidget.jsx:33-44 | the milestones carry the server's streak badge names, and below 30 days the named badge is not yet earned for the current streak |
| StreakWidget.CenturyShownAfterEarned | client/src/components/StreakWidget.jsx:40-41 | the widget can announce the century badge to a user who has already earned it on the longest streak, on a row the streak operations can produce (`RowOk`) |
| StreakWidget.CompleteRequest | client/src/components/StreakWidget.jsx:9-14 | the request is sent exactly when a challenge is present and not completed, with its id |
| StreakWidget.GuardAgreesWithServer | client/src/components/StreakWidget.jsx:85-118 | a shown button always sends its request, and only for a challenge the server does not record as completed |
| Progress.Lookup | server/controllers/progressController.js:16-21 | finds the row with the (user, lesson) key, if any |
| Progress.Touched | server/controllers/progressController.js:16-21 | the upsert either gives the key's row (the one `Lookup` finds) the new access time, or appends `(user, lesson, not completed, now)` when there is none; every other row is kept at its index, the keys stay unique and no key's completion changes |
| Progress.MarkedCompleted | server/controllers/progressController.js:43-48 | the upsert either sets the key's row to completed with the new access time, or appends `(user, lesson, completed, now)` when there is none; every other row is kept at its index, the keys stay unique and no other key's completion changes |
| Progress.MarkCompletedIdempotent | server/controllers/progressController.js:43-48 | marking twice is the same as marking once |
| Progress.ProgressMapLastWins | server/controllers/progressController.js:74-80 | each map entry comes from the last row with that lesson |
| Progress.ProgressMapOfUser | server/controllers/progressController.js:74-80 | with unique keys the user's map has one key per stored row, and `completed` is true iff the stored row is completed |
| Progress.CompletedCount | server/controllers/progressController.js:104-109 | with unique keys the completed row count is the number of completed lessons |
| Progress.ProgressTable.Touch | server/controllers/progressController.js:16-21 | the table becomes `Touched` of the old one and stays consistent |
| Progress.ProgressTable.MarkCompleted | server/controllers/progressController.js:43-48 | the table becomes `MarkedCompleted` of the old one and stays consistent |
| Progress.ProgressTable.TrackLessonAccess | server/controllers/progressController.js:6-28 | 401 without a user and no write; otherwise the access is upserted and no completion changes |
| Progress.ProgressTable.MarkLessonCompleted | server/controllers/progressController.js:33-55 | 401 without a user and no write; otherwise the lesson is completed; completion never goes back |
| Progress.ProgressTable.GetUserProgress | server/controllers/progressController.js:60-87 | the `forEach` loop builds the map of the user's rows |
| Progress.ProgressTable.GetUserStats | server/controllers/progressController.js:92-130 | 401 exactly without a user and success otherwise; counts of lessons, completed lessons and attempts; the percentage is 0 without lessons, otherwise the rounded ratio, and at most 100 |
| Quiz.Graded | server/controllers/quizController.js:73-86 | one result per question in query order; `isCorrect` iff an answer was given and equals `correct_answer`; an unanswered question is incorrect |
| Quiz.Score | server/controllers/quizController.js:69-87 | the score is at most the number of questions |
| Quiz.ScoreCountsResults | server/controllers/quizController.js:69-87 | the score is the number of correct results |
| Quiz.FullMarks | server/controllers/quizController.js:69-87 | full marks exactly when every question is answered right |
| Quiz.PassedShowsEighty | server/controllers/quizController.js:111-124 | a pass always shows a percentage of at least 80 |
| Quiz.NotPassedYetEighty | server/controllers/quizController.js:111-124 | 159 of 200 shows 80% but does not pass: the rule compares the exact ratio |
| Quiz.Publics | server/controllers/quizController.js:20-39 | the public questions are the stored ones without the answer or explanation, one for one |
| Quiz.JoinAttempt | server/controllers/quizController.js:158-188 | an entry exists exactly when the attempt's quiz and that quiz's lesson are both found; it copies the attempt's id, quiz, score, total and time, the quiz's lesson id and title and the lesson's title, and its percentage is 0 for zero questions |
| Quiz.JoinAttempts | server/controllers/quizController.js:158-188 | every history entry comes from one of the attempts, and every attempt whose joins succeed yields its entry |
| Quiz.LatestAttempts | server/controllers/quizController.js:209-216 | `ORDER BY completed_at DESC LIMIT 10`: min(10, count) of the user's attempts at the quiz, newest first, none repeated, and no attempt left out is later than one kept |
| Quiz.ViewAttempts | server/controllers/quizController.js:218-225 | one view per attempt, in order |
| Quiz.Grade | server/controllers/quizController.js:69-87 | the grading loop computes `Score` and `Graded` |
| Quiz.QuizTables.QuestionsOf | server/controllers/quizController.js:59-63 | exactly the questions of the quiz |
| Quiz.QuizTables.GetQuiz | server/controllers/quizController.js:6-45 | success exactly when some quiz has the id, 404 otherwise; then the quiz with its questions ordered by `order_index`, without answers |
| Quiz.QuizTables.QuizOfLesson | server/controllers/lessonController.js:150-158 | the first quiz of the lesson, if any |
| Quiz.QuizTables.LessonOfQuiz | server/controllers/quizController.js:113-118 | the lesson of the quiz, if the quiz exists |
| Quiz.QuizTables.SubmitQuiz | server/controllers/quizController.js:50-145 | 400 without an answers object; 404 when the quiz has no questions; score, percentage and results as graded; an attempt is stored only for a signed-in user; the lesson is completed only for a signed-in user who passed |
| Quiz.QuizTables.GetQuizHistory | server/controllers/quizController.js:150-195 | 401 exactly without a user and success otherwise; min(50, joined count) entries of the user's joined attempts, none repeated, newest first, and no entry left out is later than one returned |
| Quiz.QuizTables.GetQuizAttempts | server/controllers/quizController.js:200-232 | 401 exactly without a user and success otherwise; the views of `LatestAttempts`: min(10, count) of the user's attempts at the quiz, newest first |
| Lesson.SavedRowsShape | server/controllers/lessonController.js:218-238 | each stored question is a usable generated one, with consecutive ids and list position plus one as `order_index`, so the orders increase |
| Lesson.SavedCount | server/controllers/lessonController.js:219-224 | as many questions are stored as the list has usable ones |
| Lesson.SavedEveryUsable | server/controllers/lessonController.js:219-238 | every usable question is stored at its position plus one |
| Lesson.SaveQuestions | server/controllers/lessonController.js:218-238 | the insert loop with `continue` appends exactly `SavedRows` and keeps the tables consistent |
| Lesson.WindowCount | server/controllers/lessonController.js:120-125 | with distinct line numbers the window has one line per number |
| Lesson.LessonTables.GetAllLessons | server/controllers/lessonController.js:7-18 | every lesson, ordered by `order_index` |
| Lesson.LessonTables.LessonLines | server/controllers/lessonController.js:41-45 | the lesson's lines ordered by `line_number` |
| Lesson.LessonTables.GetLesson | server/controllers/lessonController.js:23-83 | 404 for an unknown lesson; otherwise the lesson with its ordered lines, and a signed-in visit is recorded without touching completion |
| Lesson.LessonTables.LineOf | server/controllers/lessonController.js:97-105 | the line with that id in that lesson, if any |
| Lesson.LessonTables.ContextLines | server/controllers/lessonController.js:120-125 | the lesson's lines numbered max(1, n-2) through n+2, ordered by number |
| Lesson.LessonTables.ContextWindow | server/controllers/lessonController.js:120-125 | the window holds the line itself and, with distinct numbers, at most five lines |
| Lesson.WindowAtMostFive | server/controllers/lessonController.js:120-123 | with distinct line numbers, the `BETWEEN max(1, n-2) AND n+2` query returns at most five lines |
| Lesson.LessonTables.ExplainLine | server/controllers/lessonController.js:88-141 | 400 without a line id, 404 for a line outside the lesson; a cached text is returned with no call and no write; otherwise the generated text is cached and returned, and a failed call writes nothing |
| Lesson.LessonTables.GenerateQuizForLesson | server/controllers/lessonController.js:146-256 | an existing quiz is returned with its questions by `order_index` and nothing is created; 404 for an unknown lesson; a failed generation writes nothing; a reply without a list leaves an empty quiz row; a list has its usable questions stored |
| Lesson.NewQuizFound | server/controllers/lessonController.js:205-216 | a quiz appended for a lesson that had none is the one later lookups find |
| Auth.UserByEmail | server/controllers/authController.js:70-77 | the first user with that email, if any |
| Auth.AppendFreeUser | server/controllers/authController.js:21-37 | adding a user whose email and username are both free keeps emails and usernames unique |
| Auth.LoginFindsNewUser | server/controllers/authController.js:31-37 | a user just added with a free email is the one a login by that email finds |
| Auth.UserTable.Signup | server/controllers/authController.js:7-55 | 400 for a missing field, then for a password under 6 characters, then for a taken email or username, each with no write; otherwise exactly one user with the hashed password is stored and 201 returns its id |
| Auth.UserTable.Login | server/controllers/authController.js:60-103 | 400 without email or password; an unknown email and a rejected password both give 401 "Invalid credentials"; success exactly when the stored hash is accepted |
| Auth.UserTable.GetProfile | server/controllers/authController.js:108-124 | success exactly when some user has the id, 404 otherwise; then that user's profile |
| Auth.SignupThenLogin | server/controllers/authController.js:7-103 | when the comparison accepts every password against its own hash, a successful signup is followed by a successful login for the new user |

## Left out

- The AI services (line explanation and quiz generation) are function
  parameters. A call that throws is `None` or `GenerationFailed`. The HTTP
  requests, prompts and JSON parsing are not part of this model.
- Password hashing, hash comparison and token signing are function parameters.
  JWT verification is the `Option<Id>` user that each handler receives.
- Routing, middleware and server start-up are not modelled. The streak routes
  are never mounted by the server, but the controller is modelled anyway.
  `GET /lessons/:id` is mounted without `authenticate`
  (server/routes/lessonRoutes.js:8), so through the app `GetLesson` always
  receives no user and never records an access. `POST /quizzes/:id/submit`
  always authenticates (server/routes/quizRoutes.js:7), so `SubmitQuiz`
  always receives a user. The model keeps both cases of each handler, as the
  controllers are written.
- The database connection and the seeding script are not modelled. Tables are
  sequences and maps. Only the `UNIQUE` behaviour the handlers rely on is
  kept: one `user_progress` row per (user, lesson) key and one cached
  explanation per line.
- Failed queries (the 500 "Internal server error" and "Database connection
  error" replies) are not modelled, and neither is the optional error
  `details` field.
- Concurrent requests, read-then-write races and transactions are not
  modelled. Each handler runs alone.
- The random lesson and challenge-type choice of `getTodayChallenge` is a
  parameter.
- Dates are day numbers. Time zones, ISO date strings and timestamps finer
  than a day are not modelled.
- `Math.round` is exact rational rounding. `AVG(score * 100.0 / total)` in
  `getUserStats` is floating point and is not part of `Stats`.
- Progress.ProgressTable.GetUserStats: the average score field is not returned
  because it is a floating-point `AVG`.
- String lengths count Dafny characters, not UTF-16 code units.
- MySQL's case-insensitive comparison of emails and usernames is not modelled.
  Comparison is exact.
- Quiz answers are the decoded `answers` object. Values that are not strings
  count as unanswered. Storing the object as JSON text and reading it back is
  the identity.
- A `null` entry in a generated question list makes the handler throw midway
  through the insert loop. The model takes every entry as an object.
- Editor.RoundTrip: the round trip needs a first `</head>` that starts a line,
  and CSS without `$` when `</head>` is present. Otherwise `combineCode` breaks
  the round trip as written (see Editor.DollarBreaksRoundTrip).
- Lesson.LessonTables.ContextWindow: a line numbered below 1 is not inside its
  own window, because the window starts at 1.
- The React rendering, the Monaco editor, the preview frame, timers and the
  other components and the HTTP client are not modelled.
