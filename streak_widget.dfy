/** The streak card of the dashboard: the flame tier of a streak length, the
    next streak milestone with the days still missing, and the guard of the
    "complete challenge" button. */
module StreakWidget {
  import opened Common
  import opened Streak

  const Fire: string := "\U{1F525}"
  const Muscle: string := "\U{1F4AA}"

  /** The streak lengths at which one more flame is shown. */
  const FlameSteps: seq<int> := [3, 7, 30]

  /** How many flame steps a streak of `days` has reached. */
  function Flames(days: int): (r: nat)
    ensures r <= |FlameSteps|
  {
    |Filter(FlameSteps, (t: int) => days >= t)|
  }

  function Repeat(s: string, n: nat): (r: string)
    ensures |r| == n * |s|
  {
    if n == 0 then "" else s + Repeat(s, n - 1)
  }

  /** `getStreakEmoji`. */
  function StreakEmoji(days: int): (r: string)
    ensures r == if Flames(days) == 0 then Muscle else Repeat(Fire, Flames(days))
  {
    assert FlameSteps == [3, 7, 30];
    if days >= 30 then Fire + Fire + Fire
    else if days >= 7 then Fire + Fire
    else if days >= 3 then Fire
    else Muscle
  }

  /** A longer streak never shows fewer flames. */
  lemma FlamesMonotone(d1: int, d2: int)
    requires d1 <= d2
    ensures Flames(d1) <= Flames(d2)
    ensures |StreakEmoji(d1)| <= |StreakEmoji(d2)| || Flames(d1) == 0
  {
    assert FlameSteps == [3, 7, 30];
  }

  /** The object `getNextBadge` returns. */
  datatype Milestone = Milestone(days: int, name: string, emoji: string)

  /** The milestones in the order they are tested. */
  const Milestones: seq<Milestone> := [
    Milestone(7, "Week Warrior", "\U{1F3C6}"),
    Milestone(30, "Monthly Master", "\U{1F451}"),
    Milestone(100, "Century Champion", "\U{1F48E}")]

  /** `getNextBadge`: the smallest milestone above the current streak, none
      from 100 days up. */
  function NextBadge(current: int): (r: Option<Milestone>)
    ensures r.None? <==> forall i :: 0 <= i < |Milestones| ==> Milestones[i].days <= current
    ensures r.Some? ==> r.value in Milestones && current < r.value.days
    ensures r.Some? ==> forall i :: 0 <= i < |Milestones| && current < Milestones[i].days ==>
      r.value.days <= Milestones[i].days
  {
    if current < 7 then Some(Milestones[0])
    else if current < 30 then Some(Milestones[1])
    else if current < 100 then Some(Milestones[2])
    else None
  }

  /** The "N more days" text: at least one day is always missing. */
  function RemainingDays(current: int): (r: Option<int>)
    ensures r.Some? <==> NextBadge(current).Some?
    ensures r.Some? ==> 1 <= r.value == NextBadge(current).value.days - current
  {
    match NextBadge(current)
    case None => None
    case Some(m) => Some(m.days - current)
  }

  /** The three milestones carry the names of the server's three streak
      badges, and below 30 days the one shown is a streak badge the server
      has not awarded for the current streak. */
  lemma MilestonesAreStreakBadges(row: StreakRow)
    ensures Milestones[0].name == Streak7.Name() && Milestones[1].name == Streak30.Name()
    ensures Milestones[2].name == Streak100.Name()
    ensures row.current < 7 ==> NextBadge(row.current).value.name == Streak7.Name() && !Streak7.Earned(row)
    ensures 7 <= row.current < 30 ==>
      NextBadge(row.current).value.name == Streak30.Name() && Streak7.Earned(row) && !Streak30.Earned(row)
  {
  }

  /** The century badge is awarded on the longest streak, the widget counts
      the current one: a user whose longest streak reached 100 still reads
      that the century badge is 50 days away. */
  lemma CenturyShownAfterEarned()
    ensures var row := StreakRow(50, 100, Some(0), 100);
      RowOk(row) && Streak100.Earned(row) && NextBadge(row.current) == Some(Milestones[2]) &&
      RemainingDays(row.current) == Some(50)
  {
  }

  /** The widget's view of today's challenge: the row and whether the user
      completed it. */
  type TodayView = Option<(ChallengeRow, bool)>

  /** `handleCompleteChallenge`: the id it sends to the server, none when
      there is no challenge or it is already completed. */
  function CompleteRequest(today: TodayView): (r: Option<Id>)
    ensures r.Some? <==> today.Some? && !today.value.1
    ensures r.Some? ==> r.value == today.value.0.id
  {
    if today.None? || today.value.1 then None else Some(today.value.0.id)
  }

  /** The card with the complete button is shown for an open quiz or
      practice challenge. */
  predicate ButtonShown(today: TodayView) {
    today.Some? && !today.value.1 && (today.value.0.kind == "quiz" || today.value.0.kind == "practice")
  }

  /** A shown button always sends its request, and a request is only sent for
      a challenge the server does not record as completed by this user. */
  lemma GuardAgreesWithServer(t: StreakTables, user: Id, today: Day)
    ensures ButtonShown(t.TodayChallenge(user, today)) ==> CompleteRequest(t.TodayChallenge(user, today)).Some?
    ensures var r := CompleteRequest(t.TodayChallenge(user, today));
      r.Some? ==> !HasCompleted(t.completions, user, r.value)
  {
  }
}
