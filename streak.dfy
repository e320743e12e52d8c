/** The streak controller: a per-user streak row moved along by every
    activity, daily challenges and their completions, and badges awarded on
    thresholds. The MySQL tables user_streaks, daily_activities,
    daily_challenges, challenge_completions and user_badges are the fields of
    `StreakTables`; the clock is the day number `today` each handler receives. */
module Streak {
  import opened Common

  // ---------------------------------------------------------------------------
  // Rows

  /** A user_streaks row. */
  datatype StreakRow = StreakRow(current: nat, longest: nat, last: Option<Day>, total: nat)

  /** The row `getUserStreak` creates for a user without one. */
  const ZeroRow: StreakRow := StreakRow(0, 0, None, 0)

  /** A daily_activities row; `activityId` is SQL NULL when absent. */
  datatype ActivityRow = ActivityRow(user: Id, date: Day, kind: string, activityId: Option<Id>, points: int)

  /** A daily_challenges row. */
  datatype ChallengeRow = ChallengeRow(
    id: Id, date: Day, title: string, description: string,
    kind: string, targetId: Id, points: int, difficulty: string)

  /** A challenge_completions row. */
  datatype CompletionRow = CompletionRow(user: Id, challenge: Id, points: int)

  datatype BadgeKind = Streak7 | Streak30 | Streak100 | Days10 | Days50 {
    /** The `badge_type` stored in user_badges. */
    function Code(): string {
      match this
      case Streak7 => "streak_7"
      case Streak30 => "streak_30"
      case Streak100 => "streak_100"
      case Days10 => "days_10"
      case Days50 => "days_50"
    }

    function Name(): string {
      match this
      case Streak7 => "Week Warrior"
      case Streak30 => "Monthly Master"
      case Streak100 => "Century Champion"
      case Days10 => "Getting Started"
      case Days50 => "Dedicated Learner"
    }

    function Description(): string {
      match this
      case Streak7 => "Maintain a 7-day streak!"
      case Streak30 => "Maintain a 30-day streak!"
      case Streak100 => "Achieve a 100-day streak!"
      case Days10 => "Be active for 10 days!"
      case Days50 => "Be active for 50 days!"
    }

    /** The threshold test: the two streak badges on the current streak, the
        century badge on the longest one, the day badges on the total. */
    predicate Earned(row: StreakRow) {
      match this
      case Streak7 => row.current >= 7
      case Streak30 => row.current >= 30
      case Streak100 => row.longest >= 100
      case Days10 => row.total >= 10
      case Days50 => row.total >= 50
    }
  }

  /** A user_badges row; its name and description are those of its kind. */
  datatype BadgeRow = BadgeRow(user: Id, kind: BadgeKind)

  /** The order in which `checkBadgeUnlocks` tests the badges. */
  const BadgeOrder: seq<BadgeKind> := [Streak7, Streak30, Streak100, Days10, Days50]

  // ---------------------------------------------------------------------------
  // The streak transition

  /** What the stored rows keep: the current streak never exceeds the
      longest, which never exceeds the number of active days, and a row
      without a last date is all zeros. */
  predicate RowOk(r: StreakRow) {
    r.current <= r.longest <= r.total && (r.last.None? ==> r == ZeroRow)
  }

  /** The row `updateStreak` leaves for an activity on `today`, given the row
      it found (if any). */
  function Advance(prior: Option<StreakRow>, today: Day): (r: StreakRow)
    ensures r.last == Some(today)
    ensures prior.None? ==> r == StreakRow(1, 1, Some(today), 1)
    ensures prior.Some? && prior.value.last == Some(today) ==> r == prior.value
    ensures prior.Some? && prior.value.last == Some(today - 1) ==>
      r.current == prior.value.current + 1 && r.total == prior.value.total + 1
    ensures prior.Some? && prior.value.last.None? ==> r.current == 1 && r.total == 1
    ensures prior.Some? && prior.value.last.Some? && prior.value.last.value !in {today, today - 1} ==>
      r.current == 1 && r.total == prior.value.total + 1
    ensures prior.Some? && prior.value.last != Some(today) ==>
      r.longest == Max(r.current, prior.value.longest)
    ensures prior.Some? ==> r.longest >= prior.value.longest
    ensures (prior.None? || RowOk(prior.value)) ==> RowOk(r)
  {
    match prior
    case None => StreakRow(1, 1, Some(today), 1)
    case Some(p) =>
      if p.last == Some(today) then p
      else
        var newStreak: nat := if p.last.Some? && p.last.value == today - 1 then p.current + 1 else 1;
        var newTotalDays: nat := if p.last.None? then 1 else p.total + 1;
        StreakRow(newStreak, Max(newStreak, p.longest), Some(today), newTotalDays)
  }

  /** What `getUserStreak` writes back for a row it reads on `today`: after
      a gap of more than one day, the current streak drops to 0 and the last
      date becomes `today`. */
  function ResetOnRead(row: StreakRow, today: Day): (r: StreakRow)
    ensures row.last.Some? && today - row.last.value > 1 ==>
      r == row.(current := 0, last := Some(today))
    ensures !(row.last.Some? && today - row.last.value > 1) ==> r == row
    ensures RowOk(row) ==> RowOk(r)
  {
    if row.last.Some? && today - row.last.value > 1 then row.(current := 0, last := Some(today))
    else row
  }

  /** A read that resets the row is followed, the same day, by an activity:
      the activity finds `today` as the last date and changes nothing, so the
      day is neither counted in the total nor starts a new streak. */
  lemma ResetThenSameDayActivity(row: StreakRow, today: Day)
    requires row.last.Some? && today - row.last.value > 1
    ensures Advance(Some(ResetOnRead(row, today)), today).current == 0
    ensures Advance(Some(ResetOnRead(row, today)), today).total == row.total
  {}

  // ---------------------------------------------------------------------------
  // Badges

  /** The badges of `user` present in `badges`. */
  function HeldIn(badges: seq<BadgeRow>, user: Id): set<BadgeKind> {
    set i | 0 <= i < |badges| && badges[i].user == user :: badges[i].kind
  }

  /** One test of `checkBadgeUnlocks`: `kind` if its threshold is met and
      the user does not hold it. */
  function Pick(kind: BadgeKind, row: StreakRow, held: set<BadgeKind>): seq<BadgeKind> {
    if kind.Earned(row) && kind !in held then [kind] else []
  }

  /** The badges `checkBadgeUnlocks` awards for `row` when `held` are the
      badges the user already has: those whose threshold is met and that are
      not held, in test order, each once. */
  function DueBadges(row: StreakRow, held: set<BadgeKind>): (r: seq<BadgeKind>)
    ensures forall k :: k in r <==> k.Earned(row) && k !in held
    ensures forall i, j :: 0 <= i < j < |r| ==> r[i] != r[j]
  {
    Pick(Streak7, row, held) + Pick(Streak30, row, held) + Pick(Streak100, row, held) +
    Pick(Days10, row, held) + Pick(Days50, row, held)
  }

  /** The rows `checkBadgeUnlocks` inserts for `kinds`. */
  function BadgeRows(user: Id, kinds: seq<BadgeKind>): (r: seq<BadgeRow>)
    ensures |r| == |kinds|
    ensures forall i :: 0 <= i < |kinds| ==> r[i] == BadgeRow(user, kinds[i])
  {
    if kinds == [] then []
    else BadgeRows(user, kinds[..|kinds| - 1]) + [BadgeRow(user, kinds[|kinds| - 1])]
  }

  /** Inserting the rows for `kinds` adds exactly `kinds` to the user's
      badges and nothing to anyone else's. */
  lemma HeldAfterInsert(badges: seq<BadgeRow>, user: Id, kinds: seq<BadgeKind>, other: Id)
    ensures HeldIn(badges + BadgeRows(user, kinds), user) == HeldIn(badges, user) + set k | k in kinds
    ensures other != user ==> HeldIn(badges + BadgeRows(user, kinds), other) == HeldIn(badges, other)
  {
    var all := badges + BadgeRows(user, kinds);
    forall k | k in kinds ensures k in HeldIn(all, user) {
      var i :| 0 <= i < |kinds| && kinds[i] == k;
      assert all[|badges| + i] == BadgeRow(user, k);
    }
    forall k | k in HeldIn(all, user) ensures k in HeldIn(badges, user) || k in kinds {
      var i :| 0 <= i < |all| && all[i].user == user && all[i].kind == k;
      if i >= |badges| { assert all[i] == BadgeRow(user, kinds[i - |badges|]); }
    }
    forall k | k in HeldIn(badges, user) ensures k in HeldIn(all, user) {
      var i :| 0 <= i < |badges| && badges[i].user == user && badges[i].kind == k;
      assert all[i] == badges[i];
    }
    if other != user {
      forall k | k in HeldIn(all, other) ensures k in HeldIn(badges, other) {
        var i :| 0 <= i < |all| && all[i].user == other && all[i].kind == k;
        assert i < |badges|;
        assert all[i] == badges[i];
      }
      forall k | k in HeldIn(badges, other) ensures k in HeldIn(all, other) {
        var i :| 0 <= i < |badges| && badges[i].user == other && badges[i].kind == k;
        assert all[i] == badges[i];
      }
    }
  }

  /** Once the due badges are held, a second check on the same row awards
      nothing. */
  lemma SecondCheckAwardsNothing(row: StreakRow, held: set<BadgeKind>)
    ensures DueBadges(row, held + set k | k in DueBadges(row, held)) == []
  {
  }

  /** No user holds the same badge twice. */
  ghost predicate BadgesUnique(badges: seq<BadgeRow>) {
    forall i, j :: 0 <= i < j < |badges| ==> badges[i] != badges[j]
  }

  /** Appending the due badges keeps every user's badges free of duplicates. */
  lemma InsertDueKeepsUnique(badges: seq<BadgeRow>, user: Id, row: StreakRow)
    requires BadgesUnique(badges)
    ensures BadgesUnique(badges + BadgeRows(user, DueBadges(row, HeldIn(badges, user))))
  {
    var due := DueBadges(row, HeldIn(badges, user));
    var added := BadgeRows(user, due);
    var all := badges + added;
    forall i, j | 0 <= i < j < |all| ensures all[i] != all[j] {
      if j >= |badges| {
        assert all[j] == BadgeRow(user, due[j - |badges|]);
        if i < |badges| {
          assert all[i] == badges[i];
          assert badges[i].user == user ==> badges[i].kind in HeldIn(badges, user);
        } else {
          assert all[i] == BadgeRow(user, due[i - |badges|]);
        }
      }
    }
  }

  ghost predicate RowsOk(streaks: map<Id, StreakRow>) {
    forall u :: u in streaks ==> RowOk(streaks[u])
  }

  /** No user completes the same challenge twice. */
  ghost predicate CompletionsUnique(completions: seq<CompletionRow>) {
    forall i, j :: 0 <= i < j < |completions| ==>
      completions[i].user != completions[j].user || completions[i].challenge != completions[j].challenge
  }

  ghost predicate IdsBelow(challenges: seq<ChallengeRow>, next: Id) {
    forall i :: 0 <= i < |challenges| ==> challenges[i].id < next
  }

  /** The de-duplication query of `recordActivity`: a row of `user` on `day`
      with that type and that (non-NULL) activity id. */
  predicate ActivityStored(activities: seq<ActivityRow>, user: Id, day: Day, kind: string, id: Option<Id>) {
    exists i :: 0 <= i < |activities| && activities[i] == ActivityRow(user, day, kind, id, activities[i].points)
  }

  /** `user` has a completion of challenge `challenge`. */
  predicate HasCompleted(completions: seq<CompletionRow>, user: Id, challenge: Id) {
    exists i :: 0 <= i < |completions| && completions[i].user == user && completions[i].challenge == challenge
  }

  // ---------------------------------------------------------------------------
  // Handler results

  datatype ActivityResult = AlreadyRecorded | Recorded(pointsEarned: int)

  datatype ChallengeResult = AlreadyCompleted(pointsEarned: int) | Completed(pointsEarned: int)

  /** The body `getUserStreak` sends. `lastActivityDate` is the date read
      before any reset. */
  datatype StreakView = StreakView(
    currentStreak: nat, longestStreak: nat, totalDaysActive: nat,
    lastActivityDate: Option<Day>, todayActivityCount: nat,
    todayChallenge: Option<(ChallengeRow, bool)>, badges: seq<BadgeRow>,
    isActiveToday: bool)

  /** The random picks `getTodayChallenge` makes: a lesson (absent when the
      lessons table is empty) and an index into the three challenge types. */
  datatype LessonPick = LessonPick(id: Id, title: string)

  /** The title, description and type of challenge type `pick`. */
  function ChallengeType(lesson: LessonPick, pick: nat): (r: (string, string, string))
    requires pick < 3
    ensures r.2 == ["lesson", "quiz", "practice"][pick]
  {
    if pick == 0 then
      ("Complete: " + lesson.title, "Finish the lesson \"" + lesson.title + "\" to earn bonus points!", "lesson")
    else if pick == 1 then
      ("Take a Quiz", "Complete any quiz to keep your streak alive!", "quiz")
    else
      ("Practice Coding", "Spend 15 minutes coding in the editor today!", "practice")
  }

  /** The row `activityId || null` stores: a missing or zero id is NULL. */
  function StoredActivityId(activityId: Option<nat>): (r: Option<Id>)
    ensures r.Some? <==> activityId.Some? && activityId.value != 0
    ensures r.Some? ==> r == activityId
  {
    if activityId.Some? && activityId.value != 0 then activityId else None
  }

  // ---------------------------------------------------------------------------
  // The tables and the handlers

  class StreakTables {
    var streaks: map<Id, StreakRow>
    var activities: seq<ActivityRow>
    var challenges: seq<ChallengeRow>
    var nextChallengeId: Id
    var completions: seq<CompletionRow>
    var badges: seq<BadgeRow>

    /** The invariant every handler keeps: stored rows are consistent, no
        badge and no completion is stored twice, and challenge ids are
        below the next id. */
    ghost predicate Valid()
      reads this
    {
      RowsOk(streaks) && BadgesUnique(badges) && CompletionsUnique(completions) &&
      IdsBelow(challenges, nextChallengeId)
    }

    constructor ()
      ensures Valid()
      ensures streaks == map[] && activities == [] && challenges == [] && completions == [] && badges == []
    {
      streaks := map[];
      activities := [];
      challenges := [];
      nextChallengeId := 1;
      completions := [];
      badges := [];
    }

    function StreakOf(user: Id): Option<StreakRow>
      reads this
    {
      if user in streaks then Some(streaks[user]) else None
    }

    /** `hasBadge`: some badge row of `user` has type `kind`. */
    function HasBadge(user: Id, kind: BadgeKind): (r: bool)
      reads this
      ensures r <==> exists i :: 0 <= i < |badges| && badges[i] == BadgeRow(user, kind)
    {
      kind in HeldIn(badges, user)
    }

    /** `updateStreak`: the user's row becomes `Advance` of the row found;
        no other table changes. */
    method UpdateStreak(user: Id, today: Day)
      modifies this
      ensures streaks == old(streaks)[user := Advance(old(StreakOf(user)), today)]
      ensures activities == old(activities) && challenges == old(challenges)
      ensures completions == old(completions) && badges == old(badges)
      ensures nextChallengeId == old(nextChallengeId)
      ensures old(Valid()) ==> Valid()
    {
      if user !in streaks {
        streaks := streaks[user := StreakRow(1, 1, Some(today), 1)];
        return;
      }
      var streak := streaks[user];
      var newStreak := streak.current;
      var newTotalDays := streak.total;
      if streak.last.None? {
        newStreak := 1;
        newTotalDays := 1;
      } else if streak.last.value == today {
        assert streaks[user := streak] == streaks;
        return;
      } else if streak.last.value == today - 1 {
        newStreak := streak.current + 1;
        newTotalDays := streak.total + 1;
      } else {
        newStreak := 1;
        newTotalDays := streak.total + 1;
      }
      var newLongestStreak := Max(newStreak, streak.longest);
      streaks := streaks[user := StreakRow(newStreak, newLongestStreak, Some(today), newTotalDays)];
    }

    /** `checkBadgeUnlocks`: without a streak row nothing happens; otherwise
        the due badges are collected against the badges held before, then
        inserted one by one. */
    method CheckBadgeUnlocks(user: Id) returns (awarded: seq<BadgeKind>)
      modifies this
      ensures user !in old(streaks) ==> awarded == [] && badges == old(badges)
      ensures user in old(streaks) ==> awarded == DueBadges(old(streaks)[user], old(HeldIn(badges, user)))
      ensures badges == old(badges) + BadgeRows(user, awarded)
      ensures HeldIn(badges, user) == old(HeldIn(badges, user)) + set k | k in awarded
      ensures streaks == old(streaks) && activities == old(activities) && challenges == old(challenges)
      ensures completions == old(completions) && nextChallengeId == old(nextChallengeId)
      ensures old(Valid()) ==> Valid()
    {
      ghost var wasValid := Valid();
      awarded := [];
      if user !in streaks {
        HeldAfterInsert(badges, user, [], user);
        assert badges + [] == badges;
        return;
      }
      var streak := streaks[user];
      awarded := CollectDue(user, streak);
      if BadgesUnique(badges) {
        InsertDueKeepsUnique(badges, user, streak);
      }
      HeldAfterInsert(badges, user, awarded, user);
      ghost var newBadges := badges + BadgeRows(user, awarded);
      InsertBadges(user, awarded);
      if wasValid {
        assert BadgesUnique(newBadges);
        assert RowsOk(streaks) && CompletionsUnique(completions) && IdsBelow(challenges, nextChallengeId);
      }
    }

    /** The threshold tests of `checkBadgeUnlocks`, each guarded by
        `hasBadge`, in the order the source makes them. */
    method CollectDue(user: Id, streak: StreakRow) returns (awarded: seq<BadgeKind>)
      ensures awarded == DueBadges(streak, HeldIn(badges, user))
    {
      awarded := [];
      ghost var held := HeldIn(badges, user);
      if streak.current >= 7 && !HasBadge(user, Streak7) {
        awarded := awarded + [Streak7];
      }
      assert awarded == Pick(Streak7, streak, held);
      if streak.current >= 30 && !HasBadge(user, Streak30) {
        awarded := awarded + [Streak30];
      }
      assert awarded == Pick(Streak7, streak, held) + Pick(Streak30, streak, held);
      if streak.longest >= 100 && !HasBadge(user, Streak100) {
        awarded := awarded + [Streak100];
      }
      ghost var first3 := Pick(Streak7, streak, held) + Pick(Streak30, streak, held) + Pick(Streak100, streak, held);
      assert awarded == first3;
      if streak.total >= 10 && !HasBadge(user, Days10) {
        awarded := awarded + [Days10];
      }
      assert awarded == first3 + Pick(Days10, streak, held);
      if streak.total >= 50 && !HasBadge(user, Days50) {
        awarded := awarded + [Days50];
      }
    }

    /** The insertion loop of `checkBadgeUnlocks`: one user_badges row per
        kind, in order. */
    method InsertBadges(user: Id, kinds: seq<BadgeKind>)
      modifies this
      ensures badges == old(badges) + BadgeRows(user, kinds)
      ensures streaks == old(streaks) && activities == old(activities) && challenges == old(challenges)
      ensures completions == old(completions) && nextChallengeId == old(nextChallengeId)
    {
      for i := 0 to |kinds|
        invariant badges == old(badges) + BadgeRows(user, kinds[..i])
        invariant streaks == old(streaks) && activities == old(activities) && challenges == old(challenges)
        invariant completions == old(completions) && nextChallengeId == old(nextChallengeId)
      {
        assert kinds[..i + 1][..i] == kinds[..i];
        badges := badges + [BadgeRow(user, kinds[i])];
      }
      assert kinds[..|kinds|] == kinds;
    }

    /** `recordActivity`: 401 without a user, 400 without an activity type;
        an activity already stored for the same user, day, type and non-NULL
        id is acknowledged without writes; otherwise the activity is stored
        and the streak advanced. Badges are not checked here. */
    method RecordActivity(user: Option<Id>, activityType: Option<string>, activityId: Option<nat>,
                          points: Option<int>, today: Day)
      returns (reply: Reply<ActivityResult>)
      modifies this
      ensures user.None? ==> reply == Err(Unauthorized, "Authentication required")
      ensures user.Some? && Falsy(activityType) ==> reply == Err(BadRequest, "Activity type is required")
      ensures !reply.Ok? ==> activities == old(activities) && streaks == old(streaks)
      ensures reply == Ok(AlreadyRecorded) ==>
        StoredActivityId(activityId).Some? && activities == old(activities) && streaks == old(streaks)
      ensures reply.Ok? && reply.body.Recorded? ==>
        reply.body.pointsEarned == points.GetOr(0) &&
        activities == old(activities) + [ActivityRow(user.value, today, activityType.value,
                                                     StoredActivityId(activityId), points.GetOr(0))] &&
        streaks == old(streaks)[user.value := Advance(old(StreakOf(user.value)), today)]
      ensures reply.IsSuccess() ==> user.Some? && !Falsy(activityType)
      ensures reply == Ok(AlreadyRecorded) <==>
        user.Some? && !Falsy(activityType) && StoredActivityId(activityId).Some? &&
        ActivityStored(old(activities), user.value, today, activityType.value, StoredActivityId(activityId))
      ensures user.Some? && !Falsy(activityType) &&
              !(StoredActivityId(activityId).Some? &&
                ActivityStored(old(activities), user.value, today, activityType.value, StoredActivityId(activityId))) ==>
        reply == Ok(Recorded(points.GetOr(0)))
      ensures badges == old(badges) && completions == old(completions) && challenges == old(challenges)
      ensures nextChallengeId == old(nextChallengeId)
      ensures old(Valid()) ==> Valid()
    {
      if user.None? {
        return Err(Unauthorized, "Authentication required");
      }
      if Falsy(activityType) {
        return Err(BadRequest, "Activity type is required");
      }
      var u, kind, stored := user.value, activityType.value, StoredActivityId(activityId);
      // `activity_id = NULL` is never true in SQL, so a NULL id never matches.
      var existing := stored.Some? && ActivityStored(activities, u, today, kind, stored);
      if existing {
        return Ok(AlreadyRecorded);
      }
      var earned := points.GetOr(0);
      activities := activities + [ActivityRow(u, today, kind, stored, earned)];
      UpdateStreak(u, today);
      reply := Ok(Recorded(earned));
    }

    /** `completeChallenge`: 401 without a user, 404 for an unknown
        challenge; a challenge the user already completed is acknowledged
        without writes; otherwise one completion and one `challenge`
        activity are stored, the streak is advanced and badges are checked. */
    method CompleteChallenge(user: Option<Id>, challengeId: Id, today: Day)
      returns (reply: Reply<ChallengeResult>)
      modifies this
      ensures user.None? ==> reply == Err(Unauthorized, "Authentication required")
      ensures user.Some? && First(old(challenges), (c: ChallengeRow) => c.id == challengeId).None? ==>
        reply == Err(NotFound, "Challenge not found")
      ensures user.Some? && First(old(challenges), (c: ChallengeRow) => c.id == challengeId).Some? ==> reply.Ok?
      ensures !reply.Ok? || reply.body.AlreadyCompleted? ==>
        activities == old(activities) && streaks == old(streaks) &&
        completions == old(completions) && badges == old(badges)
      ensures reply.Ok? ==>
        && user.Some?
        && var c := First(old(challenges), (c: ChallengeRow) => c.id == challengeId);
        && c.Some? && reply.body.pointsEarned == c.value.points
        && (reply.body.AlreadyCompleted? <==> HasCompleted(old(completions), user.value, challengeId))
      ensures reply.Ok? && reply.body.Completed? ==>
        var u, p := user.value, reply.body.pointsEarned;
        var row := Advance(old(StreakOf(u)), today);
        completions == old(completions) + [CompletionRow(u, challengeId, p)] &&
        activities == old(activities) + [ActivityRow(u, today, "challenge", Some(challengeId), p)] &&
        streaks == old(streaks)[u := row] &&
        badges == old(badges) + BadgeRows(u, DueBadges(row, old(HeldIn(badges, u))))
      ensures challenges == old(challenges) && nextChallengeId == old(nextChallengeId)
      ensures old(Valid()) ==> Valid()
    {
      if user.None? {
        return Err(Unauthorized, "Authentication required");
      }
      var u := user.value;
      var challenge := First(challenges, (c: ChallengeRow) => c.id == challengeId);
      if challenge.None? {
        return Err(NotFound, "Challenge not found");
      }
      var points := challenge.value.points;
      var existing := HasCompleted(completions, u, challengeId);
      if existing {
        return Ok(AlreadyCompleted(points));
      }
      StoreCompletion(u, challengeId, points, today);
      UpdateStreak(u, today);
      var _ := CheckBadgeUnlocks(u);
      reply := Ok(Completed(points));
    }

    /** The two inserts of a first completion: the completion row and the
        `challenge` activity. */
    method StoreCompletion(user: Id, challengeId: Id, points: int, today: Day)
      requires !HasCompleted(completions, user, challengeId)
      modifies this
      ensures completions == old(completions) + [CompletionRow(user, challengeId, points)]
      ensures activities == old(activities) + [ActivityRow(user, today, "challenge", Some(challengeId), points)]
      ensures streaks == old(streaks) && badges == old(badges)
      ensures challenges == old(challenges) && nextChallengeId == old(nextChallengeId)
      ensures old(Valid()) ==> Valid()
    {
      completions := completions + [CompletionRow(user, challengeId, points)];
      activities := activities + [ActivityRow(user, today, "challenge", Some(challengeId), points)];
    }

    /** The `INSERT INTO daily_challenges` of `getTodayChallenge`: the row
        takes the next id. */
    method StoreChallenge(row: ChallengeRow)
      requires row.id == nextChallengeId
      modifies this
      ensures challenges == old(challenges) + [row] && nextChallengeId == old(nextChallengeId) + 1
      ensures streaks == old(streaks) && activities == old(activities)
      ensures completions == old(completions) && badges == old(badges)
      ensures old(Valid()) ==> Valid()
    {
      challenges := challenges + [row];
      nextChallengeId := nextChallengeId + 1;
    }

    /** `getUserStreak`: 401 without a user; a missing row is created as all
        zeros; a gap of more than one day since the last date resets the row
        as `ResetOnRead` says. The reply reports the row read (with the
        current streak after any reset), today's activity count, the first
        challenge dated today with whether the user completed it, and the
        user's badges newest first. */
    method GetUserStreak(user: Option<Id>, today: Day) returns (reply: Reply<StreakView>)
      modifies this
      ensures user.None? ==> reply == Err(Unauthorized, "Authentication required") && streaks == old(streaks)
      ensures user.Some? ==>
        var u := user.value;
        var row := old(StreakOf(u)).GetOr(ZeroRow);
        var count := |Filter(activities, (a: ActivityRow) => a.user == u && a.date == today)|;
        streaks == old(streaks)[u := ResetOnRead(row, today)] &&
        reply == Ok(StreakView(
          ResetOnRead(row, today).current, row.longest, row.total, row.last,
          count, TodayChallenge(u, today),
          Reverse(Filter(badges, (b: BadgeRow) => b.user == u)),
          count > 0))
      ensures activities == old(activities) && challenges == old(challenges) && completions == old(completions)
      ensures badges == old(badges) && nextChallengeId == old(nextChallengeId)
      ensures old(Valid()) ==> Valid()
    {
      if user.None? {
        return Err(Unauthorized, "Authentication required");
      }
      var u := user.value;
      if u !in streaks {
        streaks := streaks[u := ZeroRow];
      }
      var streak := streaks[u];
      var current := streak.current;
      if streak.last.Some? {
        var daysDiff := today - streak.last.value;
        if daysDiff > 1 {
          streaks := streaks[u := streak.(current := 0, last := Some(today))];
          current := 0;
        }
      }
      var count := |Filter(activities, (a: ActivityRow) => a.user == u && a.date == today)|;
      reply := Ok(StreakView(
        current, streak.longest, streak.total, streak.last,
        count, TodayChallenge(u, today),
        Reverse(Filter(badges, (b: BadgeRow) => b.user == u)),
        count > 0));
    }

    /** The challenge part of `getUserStreak`: the first challenge dated
        `today`, with whether `user` has completed it. */
    function TodayChallenge(user: Id, today: Day): (r: Option<(ChallengeRow, bool)>)
      reads this
      ensures r.None? <==> forall i :: 0 <= i < |challenges| ==> challenges[i].date != today
      ensures r.Some? ==>
        r.value.0 in challenges && r.value.0.date == today &&
        (r.value.1 <==> HasCompleted(completions, user, r.value.0.id))
    {
      match First(challenges, (c: ChallengeRow) => c.date == today)
      case None => None
      case Some(c) =>
        Some((c, HasCompleted(completions, user, c.id)))
    }

    /** `getTodayChallenge`: when no challenge is dated `today` and a lesson
        was picked, a 10-point beginner challenge of the picked type is
        created for it; the first challenge dated today is returned, with
        whether a signed-in user completed it. */
    method GetTodayChallenge(user: Option<Id>, today: Day, lesson: Option<LessonPick>, pick: nat)
      returns (challenge: Option<ChallengeRow>, completed: bool)
      requires pick < 3
      modifies this
      ensures First(old(challenges), (c: ChallengeRow) => c.date == today).Some? ==>
        challenges == old(challenges) &&
        challenge == First(old(challenges), (c: ChallengeRow) => c.date == today)
      ensures First(old(challenges), (c: ChallengeRow) => c.date == today).None? && lesson.None? ==>
        challenges == old(challenges) && challenge.None? && !completed
      ensures First(old(challenges), (c: ChallengeRow) => c.date == today).None? && lesson.Some? ==>
        var t := ChallengeType(lesson.value, pick);
        challenge == Some(ChallengeRow(old(nextChallengeId), today, t.0, t.1, t.2, lesson.value.id, 10, "beginner")) &&
        challenges == old(challenges) + [challenge.value]
      ensures completed <==>
        user.Some? && challenge.Some? && HasCompleted(completions, user.value, challenge.value.id)
      ensures streaks == old(streaks) && activities == old(activities)
      ensures completions == old(completions) && badges == old(badges)
      ensures old(Valid()) ==> Valid()
    {
      var found := First(challenges, (c: ChallengeRow) => c.date == today);
      if found.None? && lesson.Some? {
        var t := ChallengeType(lesson.value, pick);
        var row := ChallengeRow(nextChallengeId, today, t.0, t.1, t.2, lesson.value.id, 10, "beginner");
        StoreChallenge(row);
        FirstOfAppended(old(challenges), row, (c: ChallengeRow) => c.date == today);
        found := First(challenges, (c: ChallengeRow) => c.date == today);
      }
      challenge := found;
      completed := false;
      if challenge.Some? && user.Some? {
        completed := HasCompleted(completions, user.value, challenge.value.id);
      }
    }
  }

  /** `ORDER BY earned_at DESC` on rows inserted in time order. Badges
      inserted by one `checkBadgeUnlocks` share one `NOW()`, and the database
      may return such ties in any order; this model fixes them in reverse
      insertion order. */
  function Reverse<T>(s: seq<T>): (r: seq<T>)
    ensures |r| == |s|
    ensures forall i :: 0 <= i < |s| ==> r[i] == s[|s| - 1 - i]
  {
    if s == [] then [] else Reverse(s[1..]) + [s[0]]
  }
}
