/** What a user_streaks row means: after activities on a non-decreasing
    sequence of days (the clock never runs backwards) and no streak read in
    between, the row `updateStreak` keeps summarises the set of active days.
    The current streak is the run of consecutive active days ending on the
    last one, the total is the number of distinct active days, and the
    longest streak is the longest run anywhere. */
module StreakHistory {
  import opened Common
  import opened Streak

  /** The row after `updateStreak` has run once per day of `days`, in order,
      starting without a row. */
  function Replay(days: seq<Day>): (r: Option<StreakRow>)
    ensures r.None? <==> days == []
    ensures r.Some? ==> RowOk(r.value) && r.value.last == Some(days[|days| - 1])
  {
    if days == [] then None
    else Some(Advance(Replay(days[..|days| - 1]), days[|days| - 1]))
  }

  ghost predicate Nondecreasing(days: seq<Day>) {
    forall i, j :: 0 <= i < j < |days| ==> days[i] <= days[j]
  }

  /** Each of the `k` days ending at `d` is an active day. */
  ghost predicate RunEndsAt(days: seq<Day>, d: Day, k: nat) {
    forall x :: d - k < x <= d ==> x in days
  }

  /** Some run of `k` consecutive active days exists. */
  ghost predicate RunAchieved(days: seq<Day>, k: nat) {
    exists d :: d in days && RunEndsAt(days, d, k)
  }

  /** `r` summarises the active days `days`. */
  ghost predicate Summarises(days: seq<Day>, r: StreakRow) {
    && days != []
    && r.last == Some(days[|days| - 1])
    && RunEndsAt(days, r.last.value, r.current)
    && r.last.value - r.current !in days
    && r.total == |set d | d in days|
    && (forall d: Day, k: nat :: RunEndsAt(days, d, k) ==> k <= r.longest)
    && RunAchieved(days, r.longest)
  }

  lemma {:induction false} ReplaySummarises(days: seq<Day>)
    requires Nondecreasing(days) && days != []
    ensures Summarises(days, Replay(days).value)
  {
    var n := |days|;
    var p, t := days[..n - 1], days[n - 1];
    assert days == p + [t];
    if p == [] {
      assert days == [t];
      FirstDay(t);
    } else {
      assert Nondecreasing(p);
      ReplaySummarises(p);
      var r0 := Replay(p).value;
      assert r0.last == Some(p[|p| - 1]);
      if t == p[|p| - 1] {
        SameDay(p, t, r0);
      } else {
        forall x | x in p ensures x <= p[|p| - 1] {
          var i :| 0 <= i < |p| && p[i] == x;
          assert days[i] <= days[|p| - 1];
        }
        assert p[|p| - 1] < t by { assert days[|p| - 1] <= days[n - 1]; }
        NewDay(p, t, r0);
      }
    }
  }

  lemma FirstDay(t: Day)
    ensures Summarises([t], Advance(None, t))
  {
    var days := [t];
    assert (set d | d in days) == {t};
    forall d: Day, k: nat | RunEndsAt(days, d, k) ensures k <= 1 {
      assert 0 < k ==> d in days;
      assert 1 < k ==> d - 1 in days;
    }
    assert RunEndsAt(days, t, 1);
  }

  /** A second activity on the last active day changes neither the days nor
      the row. */
  lemma SameDay(p: seq<Day>, t: Day, r0: StreakRow)
    requires Summarises(p, r0) && t == p[|p| - 1]
    ensures Summarises(p + [t], Advance(Some(r0), t))
  {
    var days := p + [t];
    assert forall x :: x in days <==> x in p;
    assert (set d | d in days) == (set d | d in p);
    forall d: Day, k: nat | RunEndsAt(days, d, k) ensures RunEndsAt(p, d, k) {
      forall x | d - k < x <= d ensures x in p {
        assert x in days;
      }
    }
    var d :| d in p && RunEndsAt(p, d, r0.longest);
    assert d in days && RunEndsAt(days, d, r0.longest);
  }

  /** An activity on a day after every active day. */
  lemma NewDay(p: seq<Day>, t: Day, r0: StreakRow)
    requires Summarises(p, r0)
    requires p[|p| - 1] < t && forall x :: x in p ==> x <= p[|p| - 1]
    ensures Summarises(p + [t], Advance(Some(r0), t))
  {
    var days := p + [t];
    var l := r0.last.value;
    var r := Advance(Some(r0), t);
    assert l in p by { assert p[|p| - 1] in p; }
    assert forall x :: x in days <==> x in p || x == t;
    // total
    assert (set d | d in days) == (set d | d in p) + {t};
    assert t !in (set d | d in p);
    // current
    if t == l + 1 {
      assert r.current == r0.current + 1;
      forall x | t - r.current < x <= t ensures x in days {
        if x < t {
          assert l - r0.current < x <= l;
        }
      }
      assert l - r0.current !in p;
    } else {
      assert RunEndsAt(days, t, 1);
      assert t - 1 !in p;
    }
    assert t - r.current !in days;
    // every run is at most the longest
    forall d: Day, k: nat | RunEndsAt(days, d, k) ensures k <= r.longest {
      if k > 0 {
        assert d in days;
        if d == t {
          assert k > r.current ==> t - r.current in days;
        } else {
          assert d < t;
          forall x | d - k < x <= d ensures x in p {
            assert x in days;
          }
          assert RunEndsAt(p, d, k);
        }
      }
    }
    // the longest run is achieved
    if r.longest == r.current {
      assert t in days && RunEndsAt(days, t, r.longest);
    } else {
      var d :| d in p && RunEndsAt(p, d, r0.longest);
      assert d in days && RunEndsAt(days, d, r.longest);
    }
  }
}
