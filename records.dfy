/**
 * The two tables the dashboard loads: one row per calendar day and one row per
 * (day, hour). Dates are day ordinals, compared with `<=` as Python `date`s are.
 * Only the columns the dashboard reads are kept.
 */
module Records {
  import opened Wrappers

  /** A row of the daily table. */
  datatype DayRecord = DayRecord(
    dteday: int,
    season: int,
    yr: int,
    holiday: int,
    workingday: int,
    casual: int,
    registered: int,
    cnt: int)

  /** A row of the hourly table. */
  datatype HourRecord = HourRecord(
    dteday: int,
    hr: int,
    weathersit: int,
    cnt: int)

  /** The daily table has one row per date. */
  ghost predicate DistinctDates(days: seq<DayRecord>)
  {
    forall i, j :: 0 <= i < j < |days| ==> days[i].dteday != days[j].dteday
  }

  /** The set of dates present in the daily table. */
  function Dates(days: seq<DayRecord>): (ds: set<int>)
    ensures forall t :: t in ds <==> exists d :: d in days && d.dteday == t
  {
    set d | d in days :: d.dteday
  }

  /** The earliest date of the daily table; `None` (pandas `NaT`) for an empty table. */
  function MinDate(days: seq<DayRecord>): (m: Option<int>)
    ensures m.Some? <==> |days| > 0
    ensures m.Some? ==> m.value in Dates(days)
    ensures m.Some? ==> forall d :: d in days ==> m.value <= d.dteday
  {
    if days == [] then None
    else
      var rest := MinDate(days[1..]);
      assert forall d :: d in days ==> d == days[0] || d in days[1..];
      if rest.None? || days[0].dteday <= rest.value then Some(days[0].dteday) else rest
  }

  /** The latest date of the daily table; `None` (pandas `NaT`) for an empty table. */
  function MaxDate(days: seq<DayRecord>): (m: Option<int>)
    ensures m.Some? <==> |days| > 0
    ensures m.Some? ==> m.value in Dates(days)
    ensures m.Some? ==> forall d :: d in days ==> d.dteday <= m.value
  {
    if days == [] then None
    else
      var rest := MaxDate(days[1..]);
      assert forall d :: d in days ==> d == days[0] || d in days[1..];
      if rest.None? || days[0].dteday >= rest.value then Some(days[0].dteday) else rest
  }
}
