/** Vocabulary shared by the controllers: identifiers, day numbers, the JSON
    reply of a handler, and the two relational operations every SELECT in the
    controllers is built from (WHERE as Filter, ORDER BY as SortBy). */
module Common {

  /** Primary keys of the MySQL tables (AUTO_INCREMENT, so never negative). */
  type Id = nat

  /** A calendar day as a day number: yesterday is `today - 1`. */
  type Day = int

  datatype Option<T> = None | Some(value: T) {
    function GetOr(default: T): T {
      match this
      case Some(v) => v
      case None => default
    }
  }

  /** What a handler sends: a body with status 200 (`Ok`) or 201 (`Created`),
      or an error status with the `error` message of its JSON body. */
  datatype Reply<T> = Ok(body: T) | Created(body: T) | Err(status: nat, message: string) {
    predicate IsSuccess() { !Err? }
  }

  const BadRequest: nat := 400
  const Unauthorized: nat := 401
  const NotFound: nat := 404
  const ServerError: nat := 500

  /** JavaScript's `value || ''` for an optional string. */
  function OrEmpty(s: Option<string>): string {
    s.GetOr("")
  }

  /** JavaScript's truthiness test `!x` for an optional string: absent or empty. */
  predicate Falsy(s: Option<string>) {
    s.None? || s.value == ""
  }

  function Max(a: int, b: int): int {
    if a < b then b else a
  }

  function Min(a: int, b: int): int {
    if a < b then a else b
  }

  // ---------------------------------------------------------------------------
  // WHERE: keep the rows that satisfy a condition, in table order.

  function Filter<T(!new)>(s: seq<T>, keep: T -> bool): (r: seq<T>)
    ensures |r| <= |s|
    ensures forall x :: x in r <==> x in s && keep(x)
  {
    if s == [] then []
    else (if keep(s[0]) then [s[0]] else []) + Filter(s[1..], keep)
  }

  lemma {:induction false} FilterNone<T(!new)>(s: seq<T>, keep: T -> bool)
    requires forall x :: x in s ==> !keep(x)
    ensures Filter(s, keep) == []
  {
    if s != [] {
      assert s[0] in s;
      FilterNone(s[1..], keep);
    }
  }

  /** `LIMIT 1` without `ORDER BY`: the first row, in table order, that
      satisfies the condition. */
  function First<T>(s: seq<T>, keep: T -> bool): (r: Option<T>)
    ensures r.Some? ==>
      exists i :: 0 <= i < |s| && s[i] == r.value && keep(s[i]) && forall j :: 0 <= j < i ==> !keep(s[j])
    ensures r.None? <==> forall i :: 0 <= i < |s| ==> !keep(s[i])
  {
    if s == [] then None
    else if keep(s[0]) then Some(s[0])
    else
      var r := First(s[1..], keep);
      assert forall i :: 1 <= i < |s| ==> s[i] == s[1..][i - 1];
      r
  }

  /** A row appended after rows that all fail the test is the first match. */
  lemma {:induction false} FirstOfAppended<T>(s: seq<T>, x: T, keep: T -> bool)
    requires First(s, keep).None? && keep(x)
    ensures First(s + [x], keep) == Some(x)
  {
    if s != [] {
      assert (s + [x])[1..] == s[1..] + [x];
      assert First(s[1..], keep).None?;
      FirstOfAppended(s[1..], x, keep);
    } else {
      assert s + [x] == [x];
    }
  }

  // ---------------------------------------------------------------------------
  // ORDER BY: an insertion sort on an integer key.

  ghost predicate SortedBy<T>(s: seq<T>, key: T -> int) {
    forall i, j :: 0 <= i < j < |s| ==> key(s[i]) <= key(s[j])
  }

  function InsertBy<T>(x: T, s: seq<T>, key: T -> int): (r: seq<T>)
    requires SortedBy(s, key)
    ensures SortedBy(r, key)
    ensures multiset(r) == multiset(s) + multiset{x}
  {
    if s == [] || key(x) <= key(s[0]) then [x] + s
    else
      var rest := InsertBy(x, s[1..], key);
      assert s == [s[0]] + s[1..];
      HeadBelowRest(x, s, rest, key);
      [s[0]] + rest
  }

  /** The head of a sorted `s` stays below every row once `x`, which is
      larger, is inserted into the tail. */
  lemma HeadBelowRest<T>(x: T, s: seq<T>, rest: seq<T>, key: T -> int)
    requires SortedBy(s, key) && s != [] && key(s[0]) < key(x)
    requires SortedBy(rest, key) && multiset(rest) == multiset(s[1..]) + multiset{x}
    ensures SortedBy([s[0]] + rest, key)
  {
    forall k | 0 <= k < |rest|
      ensures key(s[0]) <= key(rest[k])
    {
      assert rest[k] in multiset(rest);
      if rest[k] != x {
        assert rest[k] in multiset(s[1..]);
        var i :| 0 <= i < |s[1..]| && s[1..][i] == rest[k];
        assert s[i + 1] == rest[k];
      }
    }
    var r := [s[0]] + rest;
    forall i, j | 0 <= i < j < |r| ensures key(r[i]) <= key(r[j]) {
      assert r[j] == rest[j - 1];
      if i > 0 {
        assert r[i] == rest[i - 1];
      }
    }
  }

  /** The rows in ascending order of `key`, as `ORDER BY key ASC` returns them. */
  function SortBy<T>(s: seq<T>, key: T -> int): (r: seq<T>)
    ensures SortedBy(r, key)
    ensures multiset(r) == multiset(s)
  {
    if s == [] then []
    else
      assert s == [s[0]] + s[1..];
      InsertBy(s[0], SortBy(s[1..], key), key)
  }

  lemma SortByKeepsRows<T>(s: seq<T>, key: T -> int)
    ensures |SortBy(s, key)| == |s|
    ensures forall x :: x in SortBy(s, key) <==> x in s
  {
    var r := SortBy(s, key);
    assert |r| == |multiset(r)| == |multiset(s)| == |s|;
    forall x ensures x in r <==> x in s {
      assert x in r <==> x in multiset(r);
      assert x in s <==> x in multiset(s);
    }
  }

  /** `ORDER BY time DESC LIMIT n`: at most `n` of the rows, latest first; no
      row left out is later than a row kept. */
  function Newest<T>(s: seq<T>, n: nat, time: T -> int): (r: seq<T>)
    ensures |r| == Min(n, |s|)
    ensures forall i, j :: 0 <= i < j < |r| ==> time(r[i]) >= time(r[j])
    ensures multiset(r) <= multiset(s)
    ensures forall x :: x in r ==> x in s
    ensures forall x, y :: x in multiset(s) - multiset(r) && y in r ==> time(x) <= time(y)
  {
    var sorted := SortBy(s, (x: T) => -time(x));
    SortByKeepsRows(s, (x: T) => -time(x));
    var k := if |s| < n then |s| else n;
    DescendingPrefix(s, sorted, k, time);
    sorted[..k]
  }

  /** A prefix of the rows sorted latest first holds rows of `s`, and every
      row of `s` beyond it is no later than the rows in it. */
  lemma DescendingPrefix<T>(s: seq<T>, sorted: seq<T>, k: nat, time: T -> int)
    requires multiset(sorted) == multiset(s) && k <= |sorted|
    requires forall i, j :: 0 <= i < j < |sorted| ==> -time(sorted[i]) <= -time(sorted[j])
    ensures multiset(sorted[..k]) <= multiset(s)
    ensures forall x :: x in sorted[..k] ==> x in s
    ensures forall x, y :: x in multiset(s) - multiset(sorted[..k]) && y in sorted[..k] ==> time(x) <= time(y)
  {
    PrefixRest(sorted, k);
    forall x | x in sorted[..k] ensures x in s {
      assert x in multiset(sorted[..k]);
      assert x in multiset(s);
    }
    PrefixLatest(sorted, k, time);
  }

  /** In rows sorted latest first, every row past `k` is no later than every
      row before it. */
  lemma PrefixLatest<T>(sorted: seq<T>, k: nat, time: T -> int)
    requires k <= |sorted|
    requires forall i, j :: 0 <= i < j < |sorted| ==> -time(sorted[i]) <= -time(sorted[j])
    ensures forall x, y :: x in multiset(sorted[k..]) && y in sorted[..k] ==> time(x) <= time(y)
  {
    forall x, y | x in multiset(sorted[k..]) && y in sorted[..k] ensures time(x) <= time(y) {
      var j :| k <= j < |sorted| && sorted[j] == x;
      var i :| 0 <= i < k && sorted[i] == y;
    }
  }

  lemma PrefixRest<T>(s: seq<T>, k: nat)
    requires k <= |s|
    ensures multiset(s) == multiset(s[..k]) + multiset(s[k..])
  {
    assert s == s[..k] + s[k..];
  }

  // ---------------------------------------------------------------------------
  // Percentages.

  /** `Math.round(part / whole * 100)` for a positive `whole`, computed on the
      exact rational: 100 * part / whole rounded half up. */
  function RoundedPercent(part: nat, whole: nat): (p: nat)
    requires whole > 0
    ensures 2 * whole * p <= 200 * part + whole < 2 * whole * (p + 1)
    ensures part <= whole ==> p <= 100
  {
    PercentBounds(part, whole);
    (200 * part + whole) / (2 * whole)
  }

  lemma PercentBounds(part: nat, whole: nat)
    requires whole > 0
    ensures var p := (200 * part + whole) / (2 * whole);
      2 * whole * p <= 200 * part + whole < 2 * whole * (p + 1) &&
      (part <= whole ==> p <= 100)
  {
    var n, d := 200 * part + whole, 2 * whole;
    var p := n / d;
    assert d * p <= n < d * (p + 1);
    if part <= whole && p > 100 {
      assert n < d * 101;
      MulMonotone(d, 101, p);
    }
  }

  lemma MulMonotone(d: nat, a: nat, b: nat)
    requires a <= b
    ensures d * a <= d * b
  {}

  /** The guard of the history and attempt lists: no questions, no percentage. */
  function GuardedPercent(score: nat, total: nat): (p: nat)
    ensures total == 0 ==> p == 0
    ensures total > 0 ==> p == RoundedPercent(score, total)
    ensures score <= total ==> p <= 100
  {
    if total > 0 then RoundedPercent(score, total) else 0
  }
}
