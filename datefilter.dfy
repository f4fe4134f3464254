/**
 * The filter stage: the daily table is cut to the chosen date range, and the
 * hourly table is cut to the surviving dates by an inner merge on `dteday`.
 */
module DateFilter {
  import opened Wrappers
  import opened Tables
  import opened Records

  /** The boolean mask of the date filter: `(dteday >= start) & (dteday <= end)`. */
  function InRange(start: int, end: int): DayRecord -> bool
  {
    (d: DayRecord) => start <= d.dteday && d.dteday <= end
  }

  /**
   * The daily rows with `start <= dteday <= end`, in table order. Bounds with
   * `start > end` only raise a warning in the sidebar and are used as they are.
   */
  function FilterByDate(days: seq<DayRecord>, start: int, end: int): (r: seq<DayRecord>)
    ensures forall d :: d in r <==> d in days && start <= d.dteday <= end
    ensures |r| <= |days|
    ensures start > end ==> r == []
  {
    var r := Filter(days, InRange(start, end));
    assert r != [] ==> r[0] in r;
    r
  }

  /** Filtering a table made of two parts filters each part and keeps the parts in order. */
  lemma FilterByDateKeepsOrder(a: seq<DayRecord>, b: seq<DayRecord>, start: int, end: int)
    ensures FilterByDate(a + b, start, end) == FilterByDate(a, start, end) + FilterByDate(b, start, end)
  {
    FilterConcat(a, b, InRange(start, end));
  }

  /** A daily row occurs in the filtered table as often as in the table when in range, never otherwise. */
  lemma FilterByDateMultiplicity(days: seq<DayRecord>, start: int, end: int, d: DayRecord)
    ensures multiset(FilterByDate(days, start, end))[d] ==
      if start <= d.dteday <= end then multiset(days)[d] else 0
  {
    FilterMultiplicity(days, InRange(start, end), d);
  }

  /** With the date pickers at their defaults, the earliest and the latest date, nothing is filtered out. */
  lemma DefaultRangeIsIdentity(days: seq<DayRecord>)
    requires |days| > 0
    ensures FilterByDate(days, MinDate(days).value, MaxDate(days).value) == days
  {
    var lo, hi := MinDate(days).value, MaxDate(days).value;
    FilterAll(days, InRange(lo, hi));
  }

  /** The number of daily rows dated `date`: the rows of the right side an hourly row matches. */
  function Matches(days: seq<DayRecord>, date: int): nat
  {
    |Filter(days, OnDate(date))|
  }

  /** The mask selecting the daily rows dated `date`. */
  function OnDate(date: int): DayRecord -> bool
  {
    (d: DayRecord) => d.dteday == date
  }

  /** An hourly date matches some daily row exactly when it is one of the daily dates. */
  lemma MatchesPositive(days: seq<DayRecord>, date: int)
    ensures Matches(days, date) > 0 <==> date in Dates(days)
    ensures Matches(days, date) <= |days|
  {
    var m := Filter(days, OnDate(date));
    assert |m| > 0 ==> m[0] in m;
  }

  /** `n` copies of the row `h`. */
  function Repeat(h: HourRecord, n: nat): (r: seq<HourRecord>)
    ensures |r| == n
    ensures forall x :: x in r ==> x == h
  {
    if n == 0 then [] else [h] + Repeat(h, n - 1)
  }

  /**
   * The inner merge of the hourly table with the dates of the daily table
   * (`hour_df.merge(day[['dteday']], on='dteday', how='inner')`): every hourly
   * row, in the hourly table's order, once for each daily row with its date.
   */
  function InnerJoinOnDate(hours: seq<HourRecord>, days: seq<DayRecord>): (r: seq<HourRecord>)
    ensures forall x :: x in r ==> x in hours && x.dteday in Dates(days)
    ensures days == [] ==> r == []
  {
    if hours == [] then []
    else
      MatchesPositive(days, hours[0].dteday);
      Repeat(hours[0], Matches(days, hours[0].dteday)) + InnerJoinOnDate(hours[1..], days)
  }

  /**
   * An hourly row is in the merge exactly when it is in the hourly table and
   * its date is one of the daily dates; no daily dates, no merged rows.
   */
  lemma JoinMembership(hours: seq<HourRecord>, days: seq<DayRecord>)
    ensures forall h :: h in InnerJoinOnDate(hours, days) <==> h in hours && h.dteday in Dates(days)
    ensures Dates(days) == {} ==> InnerJoinOnDate(hours, days) == []
  {
    var r := InnerJoinOnDate(hours, days);
    forall h ensures h in r <==> h in hours && h.dteday in Dates(days) {
      JoinMultiplicity(hours, days, h);
      MatchesPositive(days, h.dteday);
      PositiveProduct(multiset(hours)[h], Matches(days, h.dteday));
    }
    assert |r| > 0 ==> r[0] in r;
  }

  lemma PositiveProduct(a: nat, b: nat)
    ensures a * b > 0 <==> a > 0 && b > 0
  {
  }

  lemma MultisetRepeat(h: HourRecord, n: nat, x: HourRecord)
    ensures multiset(Repeat(h, n))[x] == if x == h then n else 0
  {
  }

  /** Each hourly row occurs in the merge once per daily row of its date, for each of its occurrences. */
  lemma {:induction false} JoinMultiplicity(hours: seq<HourRecord>, days: seq<DayRecord>, h: HourRecord)
    ensures multiset(InnerJoinOnDate(hours, days))[h] == multiset(hours)[h] * Matches(days, h.dteday)
  {
    if hours != [] {
      JoinMultiplicity(hours[1..], days, h);
      JoinStep(hours, days, h);
      HeadCount(hours, h);
      MultisetRepeat(hours[0], Matches(days, hours[0].dteday), h);
      CopiesArithmetic(
        multiset(InnerJoinOnDate(hours, days))[h], multiset(InnerJoinOnDate(hours[1..], days))[h],
        multiset(hours)[h], multiset(hours[1..])[h], if hours[0] == h then 1 else 0, Matches(days, h.dteday));
    }
  }

  /** The counting step of the merge: the head row's copies plus the rest's copies. */
  lemma CopiesArithmetic(joined: nat, joinedRest: nat, total: nat, rest: nat, head: nat, m: nat)
    requires head == 0 || head == 1
    requires total == head + rest
    requires joinedRest == rest * m
    requires joined == head * m + joinedRest
    ensures joined == total * m
  {
    if head == 1 {
      MulSucc(rest, m);
    }
  }

  lemma JoinStep(hours: seq<HourRecord>, days: seq<DayRecord>, h: HourRecord)
    requires hours != []
    ensures multiset(InnerJoinOnDate(hours, days))[h] ==
      multiset(Repeat(hours[0], Matches(days, hours[0].dteday)))[h] + multiset(InnerJoinOnDate(hours[1..], days))[h]
  {
    var copies := Repeat(hours[0], Matches(days, hours[0].dteday));
    assert InnerJoinOnDate(hours, days) == copies + InnerJoinOnDate(hours[1..], days);
    assert multiset(copies + InnerJoinOnDate(hours[1..], days)) == multiset(copies) + multiset(InnerJoinOnDate(hours[1..], days));
  }

  lemma HeadCount(hours: seq<HourRecord>, h: HourRecord)
    requires hours != []
    ensures multiset(hours)[h] == (if hours[0] == h then 1 else 0) + multiset(hours[1..])[h]
  {
    assert hours == [hours[0]] + hours[1..];
    assert multiset(hours) == multiset([hours[0]]) + multiset(hours[1..]);
  }

  /** Dropping the first row keeps the dates distinct, and no later row shares the first row's date. */
  lemma DistinctDatesTail(days: seq<DayRecord>)
    requires DistinctDates(days) && days != []
    ensures DistinctDates(days[1..])
    ensures forall d :: d in days[1..] ==> d.dteday != days[0].dteday
  {
    forall i, j | 0 <= i < j < |days| - 1 ensures days[1..][i].dteday != days[1..][j].dteday {
      assert days[1..][i] == days[i + 1] && days[1..][j] == days[j + 1];
    }
    forall d | d in days[1..] ensures d.dteday != days[0].dteday {
      var j :| 0 <= j < |days[1..]| && days[1..][j] == d;
      assert days[j + 1] == d;
    }
  }

  /** Selecting rows of a daily table with one row per date leaves one row per date. */
  lemma {:induction false} FilterKeepsDistinctDates(days: seq<DayRecord>, p: DayRecord -> bool)
    requires DistinctDates(days)
    ensures DistinctDates(Filter(days, p))
  {
    if days != [] {
      DistinctDatesTail(days);
      FilterKeepsDistinctDates(days[1..], p);
      var f := Filter(days[1..], p);
      if p(days[0]) {
        var r := [days[0]] + f;
        assert Filter(days, p) == r;
        forall i, j | 0 <= i < j < |r| ensures r[i].dteday != r[j].dteday {
          assert r[j] == f[j - 1];
          assert f[j - 1] in days[1..];
          if i > 0 {
            assert r[i] == f[i - 1];
          }
        }
      }
    }
  }

  /** With one daily row per date, a date matches at most one daily row. */
  lemma {:induction false} DistinctMatchesAtMostOne(days: seq<DayRecord>, date: int)
    requires DistinctDates(days)
    ensures Matches(days, date) <= 1
  {
    if days != [] {
      var p := OnDate(date);
      assert Filter(days, p) == (if p(days[0]) then [days[0]] else []) + Filter(days[1..], p);
      DistinctDatesTail(days);
      DistinctMatchesAtMostOne(days[1..], date);
      MatchesPositive(days[1..], date);
    }
  }

  /** The mask selecting the hourly rows whose date is one of the daily dates. */
  function DateIn(days: seq<DayRecord>): HourRecord -> bool
  {
    (h: HourRecord) => h.dteday in Dates(days)
  }

  /**
   * With one daily row per date the merge is a plain selection: the hourly
   * rows whose date is present, each once, in their original order.
   */
  lemma {:induction false} JoinIsSelection(hours: seq<HourRecord>, days: seq<DayRecord>)
    requires DistinctDates(days)
    ensures InnerJoinOnDate(hours, days) == Filter(hours, DateIn(days))
  {
    if hours != [] {
      JoinIsSelection(hours[1..], days);
      SelectedCopies(hours[0], days);
      FilterCons(hours, DateIn(days));
    }
  }

  /** With one daily row per date an hourly row is copied once when its date is present, otherwise not at all. */
  lemma SelectedCopies(h: HourRecord, days: seq<DayRecord>)
    requires DistinctDates(days)
    ensures Repeat(h, Matches(days, h.dteday)) == if DateIn(days)(h) then [h] else []
  {
    DistinctMatchesAtMostOne(days, h.dteday);
    MatchesPositive(days, h.dteday);
  }

  /** With one daily row per date the merge never has more rows than the hourly table. */
  lemma JoinCountBound(hours: seq<HourRecord>, days: seq<DayRecord>)
    requires DistinctDates(days)
    ensures |InnerJoinOnDate(hours, days)| <= |hours|
  {
    JoinIsSelection(hours, days);
  }

  /** Merging a table made of two parts merges each part and keeps the parts in order. */
  lemma {:induction false} JoinKeepsOrder(a: seq<HourRecord>, b: seq<HourRecord>, days: seq<DayRecord>)
    ensures InnerJoinOnDate(a + b, days) == InnerJoinOnDate(a, days) + InnerJoinOnDate(b, days)
  {
    if a == [] {
      assert a + b == b;
    } else {
      assert (a + b)[0] == a[0];
      assert (a + b)[1..] == a[1..] + b;
      JoinKeepsOrder(a[1..], b, days);
    }
  }
}
