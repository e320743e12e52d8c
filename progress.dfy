/** The `user_progress` table and the progress controller. A row records that
    a user opened a lesson, when they last did, and whether they completed it;
    the pair (user, lesson) is the table's unique key, which every write relies
    on through `INSERT ... ON DUPLICATE KEY UPDATE`. */
module Progress {
  import opened Common
  import opened Schema

  /** A row of `user_progress`. The `completed` column is a BOOLEAN that these
      writes only ever set to FALSE (its default) or TRUE, read back as 0 or 1. */
  datatype ProgressRow = ProgressRow(user: Id, lesson: Id, completed: bool, lastAccessed: int)

  predicate HasKey(p: ProgressRow, user: Id, lesson: Id) {
    p.user == user && p.lesson == lesson
  }

  /** The unique key on (user_id, lesson_id). */
  ghost predicate KeysUnique(rows: seq<ProgressRow>) {
    forall i, j :: 0 <= i < j < |rows| ==> !HasKey(rows[j], rows[i].user, rows[i].lesson)
  }

  /** Where the row of (user, lesson) is, if there is one. */
  function Lookup(rows: seq<ProgressRow>, user: Id, lesson: Id): (r: Option<nat>)
    ensures r.Some? ==> r.value < |rows| && HasKey(rows[r.value], user, lesson)
    ensures r.Some? ==> forall i :: 0 <= i < r.value ==> !HasKey(rows[i], user, lesson)
    ensures r.None? <==> forall i :: 0 <= i < |rows| ==> !HasKey(rows[i], user, lesson)
  {
    if rows == [] then None
    else
      var before := Lookup(rows[..|rows| - 1], user, lesson);
      assert forall i :: 0 <= i < |rows| - 1 ==> rows[i] == rows[..|rows| - 1][i];
      if before.Some? then before
      else if HasKey(rows[|rows| - 1], user, lesson) then Some(|rows| - 1)
      else None
  }

  /** The user has completed the lesson. */
  ghost predicate Completed(rows: seq<ProgressRow>, user: Id, lesson: Id) {
    exists i :: 0 <= i < |rows| && HasKey(rows[i], user, lesson) && rows[i].completed
  }

  lemma SameKeySameRow(rows: seq<ProgressRow>, i: nat, j: nat)
    requires KeysUnique(rows) && i < |rows| && j < |rows|
    requires HasKey(rows[j], rows[i].user, rows[i].lesson)
    ensures i == j
  {}

  /** With unique keys, completion is what the one row of the key says. */
  lemma CompletedAt(rows: seq<ProgressRow>, user: Id, lesson: Id)
    requires KeysUnique(rows)
    ensures Completed(rows, user, lesson) <==>
      Lookup(rows, user, lesson).Some? && rows[Lookup(rows, user, lesson).value].completed
  {
    if Completed(rows, user, lesson) {
      var i :| 0 <= i < |rows| && HasKey(rows[i], user, lesson) && rows[i].completed;
      SameKeySameRow(rows, i, Lookup(rows, user, lesson).value);
    }
  }

  /** `INSERT (user, lesson, NOW()) ON DUPLICATE KEY UPDATE last_accessed_at =
      NOW()`: a new row starts not completed; an existing one only gets the new
      access time. */
  function Touched(rows: seq<ProgressRow>, user: Id, lesson: Id, now: int): (r: seq<ProgressRow>)
    ensures KeysUnique(rows) ==> KeysUnique(r)
    ensures Lookup(r, user, lesson).Some? && r[Lookup(r, user, lesson).value].lastAccessed == now
    ensures forall u, l :: Completed(r, u, l) <==> Completed(rows, u, l)
    ensures |rows| <= |r| && forall i :: 0 <= i < |rows| && !HasKey(rows[i], user, lesson) ==> r[i] == rows[i]
    ensures |r| <= |rows| + 1 && forall i :: |rows| <= i < |r| ==> HasKey(r[i], user, lesson)
    ensures forall i :: 0 <= i < |rows| && Lookup(rows, user, lesson) != Some(i) ==> r[i] == rows[i]
    ensures Lookup(rows, user, lesson).Some? ==>
      var k := Lookup(rows, user, lesson).value;
      |r| == |rows| && r[k] == rows[k].(lastAccessed := now)
    ensures Lookup(rows, user, lesson).None? ==>
      |r| == |rows| + 1 && r[|rows|] == ProgressRow(user, lesson, false, now)
  {
    match Lookup(rows, user, lesson)
    case None =>
      var r := rows + [ProgressRow(user, lesson, false, now)];
      CompletedAfterAppend(rows, ProgressRow(user, lesson, false, now));
      LookupAppended(rows, ProgressRow(user, lesson, false, now));
      r
    case Some(k) =>
      var r := rows[k := rows[k].(lastAccessed := now)];
      CompletedAfterTouch(rows, k, now);
      LookupUpdated(rows, k, r[k]);
      r
  }

  /** Appending a row that is not completed changes no key's completion. */
  lemma CompletedAfterAppend(rows: seq<ProgressRow>, p: ProgressRow)
    requires !p.completed
    ensures forall u, l :: Completed(rows + [p], u, l) <==> Completed(rows, u, l)
  {
    var r := rows + [p];
    forall u, l ensures Completed(r, u, l) <==> Completed(rows, u, l) {
      if Completed(r, u, l) {
        var i :| 0 <= i < |r| && HasKey(r[i], u, l) && r[i].completed;
        assert i < |rows| && r[i] == rows[i];
      }
      if Completed(rows, u, l) {
        var i :| 0 <= i < |rows| && HasKey(rows[i], u, l) && rows[i].completed;
        assert r[i] == rows[i];
      }
    }
  }

  /** A new access time on one row changes no key's completion. */
  lemma CompletedAfterTouch(rows: seq<ProgressRow>, k: nat, now: int)
    requires k < |rows|
    ensures forall u, l :: Completed(rows[k := rows[k].(lastAccessed := now)], u, l) <==> Completed(rows, u, l)
  {
    var r := rows[k := rows[k].(lastAccessed := now)];
    forall u, l ensures Completed(r, u, l) <==> Completed(rows, u, l) {
      if Completed(r, u, l) {
        var i :| 0 <= i < |r| && HasKey(r[i], u, l) && r[i].completed;
        assert HasKey(rows[i], u, l) && rows[i].completed;
      }
      if Completed(rows, u, l) {
        var i :| 0 <= i < |rows| && HasKey(rows[i], u, l) && rows[i].completed;
        assert HasKey(r[i], u, l) && r[i].completed;
      }
    }
  }

  /** `INSERT (user, lesson, TRUE, NOW()) ON DUPLICATE KEY UPDATE completed =
      TRUE, last_accessed_at = NOW()`. */
  function MarkedCompleted(rows: seq<ProgressRow>, user: Id, lesson: Id, now: int): (r: seq<ProgressRow>)
    ensures KeysUnique(rows) ==> KeysUnique(r)
    ensures Lookup(r, user, lesson).Some? && r[Lookup(r, user, lesson).value].lastAccessed == now
    ensures Completed(r, user, lesson)
    ensures forall u, l :: !(u == user && l == lesson) ==> (Completed(r, u, l) <==> Completed(rows, u, l))
    ensures |rows| <= |r| && forall i :: 0 <= i < |rows| && !HasKey(rows[i], user, lesson) ==> r[i] == rows[i]
    ensures |r| <= |rows| + 1 && forall i :: |rows| <= i < |r| ==> HasKey(r[i], user, lesson)
    ensures forall i :: 0 <= i < |rows| && Lookup(rows, user, lesson) != Some(i) ==> r[i] == rows[i]
    ensures Lookup(rows, user, lesson).Some? ==>
      var k := Lookup(rows, user, lesson).value;
      |r| == |rows| && r[k] == rows[k].(completed := true, lastAccessed := now)
    ensures Lookup(rows, user, lesson).None? ==>
      |r| == |rows| + 1 && r[|rows|] == ProgressRow(user, lesson, true, now)
  {
    match Lookup(rows, user, lesson)
    case None =>
      var r := rows + [ProgressRow(user, lesson, true, now)];
      assert HasKey(r[|rows|], user, lesson) && r[|rows|].completed;
      forall u, l | !(u == user && l == lesson) ensures Completed(r, u, l) <==> Completed(rows, u, l) {
        if Completed(r, u, l) {
          var i :| 0 <= i < |r| && HasKey(r[i], u, l) && r[i].completed;
          assert i < |rows|;
        }
        if Completed(rows, u, l) {
          var i :| 0 <= i < |rows| && HasKey(rows[i], u, l) && rows[i].completed;
          assert r[i] == rows[i];
        }
      }
      LookupAppended(rows, ProgressRow(user, lesson, true, now));
      r
    case Some(k) =>
      var r := rows[k := rows[k].(completed := true, lastAccessed := now)];
      assert HasKey(r[k], user, lesson) && r[k].completed;
      forall u, l | !(u == user && l == lesson) ensures Completed(r, u, l) <==> Completed(rows, u, l) {
        if Completed(r, u, l) {
          var i :| 0 <= i < |r| && HasKey(r[i], u, l) && r[i].completed;
          assert i != k && r[i] == rows[i];
        }
        if Completed(rows, u, l) {
          var i :| 0 <= i < |rows| && HasKey(rows[i], u, l) && rows[i].completed;
          assert i != k && r[i] == rows[i];
        }
      }
      LookupUpdated(rows, k, r[k]);
      r
  }

  lemma LookupAppended(rows: seq<ProgressRow>, p: ProgressRow)
    requires Lookup(rows, p.user, p.lesson).None?
    ensures Lookup(rows + [p], p.user, p.lesson) == Some(|rows|)
    ensures KeysUnique(rows) ==> KeysUnique(rows + [p])
  {
    assert (rows + [p])[..|rows|] == rows;
    if KeysUnique(rows) {
      KeysUniqueAppended(rows, p);
    }
  }

  /** A row whose key is not in a table with unique keys keeps them unique. */
  lemma KeysUniqueAppended(rows: seq<ProgressRow>, p: ProgressRow)
    requires KeysUnique(rows) && forall i :: 0 <= i < |rows| ==> !HasKey(rows[i], p.user, p.lesson)
    ensures KeysUnique(rows + [p])
  {
    var r := rows + [p];
    forall i, j | 0 <= i < j < |r| ensures !HasKey(r[j], r[i].user, r[i].lesson) {
      assert r[i] == rows[i];
      if j < |rows| {
        assert r[j] == rows[j];
      }
    }
  }

  lemma LookupUpdated(rows: seq<ProgressRow>, k: nat, p: ProgressRow)
    requires Lookup(rows, p.user, p.lesson) == Some(k)
    ensures Lookup(rows[k := p], p.user, p.lesson) == Some(k)
    ensures KeysUnique(rows) ==> KeysUnique(rows[k := p])
  {
    var r := rows[k := p];
    var q := Lookup(r, p.user, p.lesson);
    assert HasKey(r[k], p.user, p.lesson);
    if KeysUnique(rows) {
      forall i, j | 0 <= i < j < |r| ensures !HasKey(r[j], r[i].user, r[i].lesson) {
        assert HasKey(r[i], rows[i].user, rows[i].lesson);
        assert HasKey(r[j], rows[j].user, rows[j].lesson);
      }
    }
  }

  /** Marking a lesson completed twice at the same instant leaves the table as
      marking it once does. */
  lemma MarkCompletedIdempotent(rows: seq<ProgressRow>, user: Id, lesson: Id, now: int)
    ensures MarkedCompleted(MarkedCompleted(rows, user, lesson, now), user, lesson, now)
      == MarkedCompleted(rows, user, lesson, now)
  {
    var once := MarkedCompleted(rows, user, lesson, now);
    var k := Lookup(once, user, lesson).value;
    if Lookup(rows, user, lesson).None? {
      LookupAppended(rows, ProgressRow(user, lesson, true, now));
      assert once[k] == ProgressRow(user, lesson, true, now);
    } else {
      var j := Lookup(rows, user, lesson).value;
      LookupUpdated(rows, j, rows[j].(completed := true, lastAccessed := now));
      assert k == j;
    }
  }

  // ---------------------------------------------------------------------------
  // getUserProgress

  /** One entry of the progress object sent to the client. */
  datatype LessonProgress = LessonProgress(completed: bool, lastAccessed: int)

  /** `progressMap[p.lesson_id] = ...` for each row in turn: a later row of the
      same lesson overwrites an earlier one. */
  function ProgressMap(ps: seq<ProgressRow>): (m: map<Id, LessonProgress>)
    ensures forall l :: l in m <==> exists i :: 0 <= i < |ps| && ps[i].lesson == l
  {
    if ps == [] then map[]
    else
      var n := |ps| - 1;
      var before := ProgressMap(ps[..n]);
      assert forall i :: 0 <= i < n ==> ps[i] == ps[..n][i];
      before[ps[n].lesson := LessonProgress(ps[n].completed, ps[n].lastAccessed)]
  }

  /** `i` is the last of the rows about `lesson`. */
  ghost predicate LastOf(ps: seq<ProgressRow>, lesson: Id, i: int) {
    0 <= i < |ps| && ps[i].lesson == lesson && forall j :: i < j < |ps| ==> ps[j].lesson != lesson
  }

  /** The entry of a lesson is taken from the last row about it. */
  lemma {:induction false} ProgressMapLastWins(ps: seq<ProgressRow>, lesson: Id)
    requires lesson in ProgressMap(ps)
    ensures exists i :: (LastOf(ps, lesson, i) &&
      ProgressMap(ps)[lesson] == LessonProgress(ps[i].completed, ps[i].lastAccessed))
  {
    var n := |ps| - 1;
    if ps[n].lesson == lesson {
      assert LastOf(ps, lesson, n);
    } else {
      assert forall i :: 0 <= i < n ==> ps[i] == ps[..n][i];
      ProgressMapLastWins(ps[..n], lesson);
      var i :| LastOf(ps[..n], lesson, i)
        && ProgressMap(ps[..n])[lesson] == LessonProgress(ps[..n][i].completed, ps[..n][i].lastAccessed);
      assert LastOf(ps, lesson, i);
    }
  }

  /** The rows `SELECT ... FROM user_progress WHERE user_id = ?` returns. */
  function RowsOf(rows: seq<ProgressRow>, user: Id): seq<ProgressRow> {
    Filter(rows, (p: ProgressRow) => p.user == user)
  }

  /** The progress object lists exactly the lessons the user has a row for,
      each with that row's completion and access time. */
  lemma ProgressMapOfUser(rows: seq<ProgressRow>, user: Id, lesson: Id)
    requires KeysUnique(rows)
    ensures var m := ProgressMap(RowsOf(rows, user));
      && (lesson in m <==> Lookup(rows, user, lesson).Some?)
      && (lesson in m ==> m[lesson] == LessonProgress(
           rows[Lookup(rows, user, lesson).value].completed,
           rows[Lookup(rows, user, lesson).value].lastAccessed))
      && (lesson in m ==> (m[lesson].completed <==> Completed(rows, user, lesson)))
  {
    var ps := RowsOf(rows, user);
    var m := ProgressMap(ps);
    var look := Lookup(rows, user, lesson);
    if lesson in m {
      ProgressMapLastWins(ps, lesson);
      var i :| LastOf(ps, lesson, i)
        && m[lesson] == LessonProgress(ps[i].completed, ps[i].lastAccessed);
      assert ps[i] in rows by { assert ps[i] in ps; }
      var j :| 0 <= j < |rows| && rows[j] == ps[i];
      SameKeySameRow(rows, j, look.value);
      CompletedAt(rows, user, lesson);
    }
    if look.Some? {
      var p := rows[look.value];
      assert p in ps;
      var i :| 0 <= i < |ps| && ps[i] == p;
      assert ps[i].lesson == lesson;
    }
  }

  // ---------------------------------------------------------------------------
  // getUserStats

  /** The lessons a user has completed. */
  function CompletedLessons(rows: seq<ProgressRow>, user: Id): set<Id> {
    set p | p in rows && p.user == user && p.completed :: p.lesson
  }

  /** With unique keys, counting the user's completed rows counts the distinct
      lessons they completed. */
  lemma {:induction false} CompletedCount(rows: seq<ProgressRow>, user: Id)
    requires KeysUnique(rows)
    ensures |Filter(rows, (p: ProgressRow) => p.user == user && p.completed)| == |CompletedLessons(rows, user)|
  {
    if rows != [] {
      var x, rest := rows[0], rows[1..];
      UniqueTail(rows);
      CompletedCount(rest, user);
      CompletedLessonsCons(rows, user);
    }
  }

  lemma UniqueTail(rows: seq<ProgressRow>)
    requires KeysUnique(rows) && rows != []
    ensures KeysUnique(rows[1..])
    ensures forall p :: p in rows[1..] ==> !HasKey(p, rows[0].user, rows[0].lesson)
  {
    var rest := rows[1..];
    forall i, j | 0 <= i < j < |rest| ensures !HasKey(rest[j], rest[i].user, rest[i].lesson) {
      assert rest[i] == rows[i + 1] && rest[j] == rows[j + 1];
    }
    forall p | p in rest ensures !HasKey(p, rows[0].user, rows[0].lesson) {
      var j :| 0 <= j < |rest| && rest[j] == p;
      assert rows[j + 1] == p;
    }
  }

  lemma CompletedLessonsCons(rows: seq<ProgressRow>, user: Id)
    requires rows != []
    requires forall p :: p in rows[1..] ==> !HasKey(p, rows[0].user, rows[0].lesson)
    ensures var x := rows[0];
      if x.user == user && x.completed then
        CompletedLessons(rows, user) == {x.lesson} + CompletedLessons(rows[1..], user) &&
        x.lesson !in CompletedLessons(rows[1..], user)
      else CompletedLessons(rows, user) == CompletedLessons(rows[1..], user)
  {
    assert rows == [rows[0]] + rows[1..];
  }

  lemma CompletedCountIfValid(rows: seq<ProgressRow>, user: Id)
    ensures KeysUnique(rows) ==>
      |Filter(rows, (p: ProgressRow) => p.user == user && p.completed)| == |CompletedLessons(rows, user)|
  {
    if KeysUnique(rows) {
      CompletedCount(rows, user);
    }
  }

  /** The statistics object (the average quiz score is left out). */
  datatype Stats = Stats(totalLessons: nat, completedLessons: nat, totalQuizzes: nat, progressPercentage: nat)

  class ProgressTable {
    var rows: seq<ProgressRow>

    ghost predicate Valid()
      reads this
    {
      KeysUnique(rows)
    }

    constructor()
      ensures rows == [] && Valid()
    {
      rows := [];
    }

    /** The upsert that records a visit to a lesson. */
    method Touch(user: Id, lesson: Id, now: int)
      modifies this
      ensures rows == Touched(old(rows), user, lesson, now)
      ensures old(Valid()) ==> Valid()
    {
      rows := Touched(rows, user, lesson, now);
    }

    /** The upsert that records a completed lesson. */
    method MarkCompleted(user: Id, lesson: Id, now: int)
      modifies this
      ensures rows == MarkedCompleted(old(rows), user, lesson, now)
      ensures old(Valid()) ==> Valid()
    {
      rows := MarkedCompleted(rows, user, lesson, now);
    }

    /** `trackLessonAccess`: only a signed-in user's visit is recorded. */
    method TrackLessonAccess(user: Option<Id>, lesson: Id, now: int) returns (reply: Reply<string>)
      modifies this
      ensures user.None? ==> reply == Err(Unauthorized, "Authentication required") && rows == old(rows)
      ensures user.Some? ==> reply == Ok("Progress tracked") && rows == Touched(old(rows), user.value, lesson, now)
      ensures forall u, l :: Completed(rows, u, l) <==> old(Completed(rows, u, l))
      ensures old(Valid()) ==> Valid()
    {
      if user.None? {
        return Err(Unauthorized, "Authentication required");
      }
      Touch(user.value, lesson, now);
      reply := Ok("Progress tracked");
    }

    /** `markLessonCompleted`. */
    method MarkLessonCompleted(user: Option<Id>, lesson: Id, now: int) returns (reply: Reply<string>)
      modifies this
      ensures user.None? ==> reply == Err(Unauthorized, "Authentication required") && rows == old(rows)
      ensures user.Some? ==> reply == Ok("Lesson marked as completed")
      ensures user.Some? ==> rows == MarkedCompleted(old(rows), user.value, lesson, now)
      ensures user.Some? ==> Completed(rows, user.value, lesson)
      ensures forall u, l :: old(Completed(rows, u, l)) ==> Completed(rows, u, l)
      ensures old(Valid()) ==> Valid()
    {
      if user.None? {
        return Err(Unauthorized, "Authentication required");
      }
      MarkCompleted(user.value, lesson, now);
      reply := Ok("Lesson marked as completed");
    }

    /** `getUserProgress`: the user's rows folded into an object keyed by
        lesson id, one row at a time. */
    method GetUserProgress(user: Option<Id>) returns (reply: Reply<map<Id, LessonProgress>>)
      ensures user.None? ==> reply == Err(Unauthorized, "Authentication required")
      ensures user.Some? ==> reply == Ok(ProgressMap(RowsOf(rows, user.value)))
    {
      if user.None? {
        return Err(Unauthorized, "Authentication required");
      }
      var progress := RowsOf(rows, user.value);
      var progressMap: map<Id, LessonProgress> := map[];
      for i := 0 to |progress|
        invariant progressMap == ProgressMap(progress[..i])
      {
        var p := progress[i];
        assert progress[..i + 1][..i] == progress[..i];
        progressMap := progressMap[p.lesson := LessonProgress(p.completed, p.lastAccessed)];
      }
      assert progress[..|progress|] == progress;
      reply := Ok(progressMap);
    }

    /** `getUserStats`: lessons in the catalogue, lessons the user completed,
        quizzes the user attempted, and the completed share of the catalogue. */
    function GetUserStats(user: Option<Id>, lessons: seq<LessonRow>, attempts: seq<AttemptRow>): (r: Reply<Stats>)
      reads this
      ensures user.None? <==> r == Err(Unauthorized, "Authentication required")
      ensures user.Some? ==> r.Ok?
      ensures r.Ok? ==> r.body.totalLessons == |lessons|
      ensures r.Ok? ==> r.body.completedLessons == |Filter(rows, (p: ProgressRow) => p.user == user.value && p.completed)|
      ensures r.Ok? && Valid() ==> r.body.completedLessons == |CompletedLessons(rows, user.value)|
      ensures r.Ok? ==> r.body.totalQuizzes == |Filter(attempts, (a: AttemptRow) => a.user == user.value)|
      ensures r.Ok? && lessons == [] ==> r.body.progressPercentage == 0
      ensures r.Ok? && lessons != [] ==> r.body.progressPercentage == RoundedPercent(r.body.completedLessons, |lessons|)
      ensures r.Ok? && r.body.completedLessons <= |lessons| ==> r.body.progressPercentage <= 100
    {
      match user
      case None => Err(Unauthorized, "Authentication required")
      case Some(u) =>
        var completed := |Filter(rows, (p: ProgressRow) => p.user == u && p.completed)|;
        CompletedCountIfValid(rows, u);
        Ok(Stats(|lessons|, completed,
                 |Filter(attempts, (a: AttemptRow) => a.user == u)|,
                 GuardedPercent(completed, |lessons|)))
    }
  }
}
