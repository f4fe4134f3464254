/**
 * One run of the dashboard script with the two date pickers' values as
 * inputs: filter, merge, enrich, then every aggregation the charts draw.
 */
module Dashboard {
  import opened Wrappers
  import opened Tables
  import opened Records
  import opened DateFilter
  import opened Labels
  import opened Grouping
  import opened Aggregates

  /** Everything a run computes before plotting. */
  datatype Charts = Charts(
    days: seq<LabeledDay>,
    hours: seq<LabeledHour>,
    hourlyAvg: map<int, Mean>,
    users: UserTotals,
    categoryMeans: map<DayCategory, Mean>,
    rushMeans: map<(int, Weather), Mean>,
    seasonMeans: map<Season, Mean>,
    seasonYear: map<(int, Season), SeasonYearRow>)

  /**
   * The daily rows of a run are the loaded rows dated within [start, end];
   * its hourly rows are the loaded rows whose date is one of those days'.
   */
  function Render(dayTable: seq<DayRecord>, hourTable: seq<HourRecord>, start: int, end: int): (c: Charts)
    ensures |c.days| <= |dayTable|
    ensures forall d :: d in DayRows(c.days) <==> d in dayTable && start <= d.dteday <= end
    ensures forall h :: h in HourRows(c.hours) <==>
      h in hourTable && exists d :: d in dayTable && start <= d.dteday <= end && d.dteday == h.dteday
  {
    var filteredDays := FilterByDate(dayTable, start, end);
    var filteredHours := InnerJoinOnDate(hourTable, filteredDays);
    var days := EnrichDays(filteredDays);
    var hours := EnrichHours(filteredHours);
    EnrichDaysRoundTrip(filteredDays);
    EnrichHoursRoundTrip(filteredHours);
    JoinMembership(hourTable, filteredDays);
    Charts(
      days,
      hours,
      HourlyAverage(hours),
      UserSplit(days),
      DayCategoryMeans(days),
      RushWeatherMeans(hours),
      SeasonMeans(days),
      SeasonYearMeans(days))
  }

  /** The result of a run in which no daily row is selected: no rows, no groups and zero totals. */
  predicate IsEmpty(c: Charts)
  {
    && c.days == [] && c.hours == []
    && c.hourlyAvg == map[] && c.users == UserTotals(0, 0)
    && c.categoryMeans == map[] && c.rushMeans == map[]
    && c.seasonMeans == map[] && c.seasonYear == map[]
  }

  /** A date range holding none of the loaded dates gives empty tables and empty charts. */
  lemma RangeOutsideDataIsEmpty(dayTable: seq<DayRecord>, hourTable: seq<HourRecord>, start: int, end: int)
    requires forall d :: d in dayTable ==> d.dteday < start || end < d.dteday
    ensures IsEmpty(Render(dayTable, hourTable, start, end))
  {
    NoDayInRange(dayTable, start, end);
    NoDaysGiveEmptyCharts(dayTable, hourTable, start, end);
  }

  lemma NoDayInRange(dayTable: seq<DayRecord>, start: int, end: int)
    requires forall d :: d in dayTable ==> d.dteday < start || end < d.dteday
    ensures FilterByDate(dayTable, start, end) == []
  {
    FilterNone(dayTable, InRange(start, end));
  }

  /** A run whose date filter keeps no daily row is empty. */
  lemma NoDaysGiveEmptyCharts(dayTable: seq<DayRecord>, hourTable: seq<HourRecord>, start: int, end: int)
    requires FilterByDate(dayTable, start, end) == []
    ensures IsEmpty(Render(dayTable, hourTable, start, end))
  {
    var noDays: seq<DayRecord> := [];
    assert Dates(noDays) == {};
    JoinMembership(hourTable, noDays);
    EmptyGroups(EnrichDays(noDays), EnrichHours([]));
  }

  lemma EmptyGroups(days: seq<LabeledDay>, hours: seq<LabeledHour>)
    requires days == [] && hours == []
    ensures HourlyAverage(hours) == map[] && DayCategoryMeans(days) == map[]
    ensures RushWeatherMeans(hours) == map[] && SeasonMeans(days) == map[]
    ensures SeasonYearMeans(days) == map[]
  {
    assert RushRows(hours) == [];
  }

  /**
   * A start date after the end date only raises a warning; the run goes on
   * with those bounds and selects nothing.
   */
  lemma InvertedRangeIsEmpty(dayTable: seq<DayRecord>, hourTable: seq<HourRecord>, start: int, end: int)
    requires start > end
    ensures IsEmpty(Render(dayTable, hourTable, start, end))
  {
    RangeOutsideDataIsEmpty(dayTable, hourTable, start, end);
  }

  /**
   * With the date pickers at their defaults, the earliest and the latest
   * loaded date, a run keeps every daily row in order and every hourly row
   * that the merge with the whole daily table keeps.
   */
  lemma DefaultRangeKeepsAll(dayTable: seq<DayRecord>, hourTable: seq<HourRecord>)
    requires |dayTable| > 0
    ensures var c := Render(dayTable, hourTable, MinDate(dayTable).value, MaxDate(dayTable).value);
      && DayRows(c.days) == dayTable
      && |c.days| == |dayTable|
      && HourRows(c.hours) == InnerJoinOnDate(hourTable, dayTable)
  {
    var lo, hi := MinDate(dayTable).value, MaxDate(dayTable).value;
    DefaultRangeIsIdentity(dayTable);
    EnrichDaysRoundTrip(dayTable);
    EnrichHoursRoundTrip(InnerJoinOnDate(hourTable, dayTable));
  }

  /**
   * With one daily row per date, the hourly rows of a run are a selection of
   * the hourly table, in order, each row at most as often as it was loaded.
   */
  lemma HoursAreSelection(dayTable: seq<DayRecord>, hourTable: seq<HourRecord>, start: int, end: int)
    requires DistinctDates(dayTable)
    ensures var c := Render(dayTable, hourTable, start, end);
      && HourRows(c.hours) == Filter(hourTable, DateIn(FilterByDate(dayTable, start, end)))
      && |c.hours| <= |hourTable|
  {
    var filteredDays := FilterByDate(dayTable, start, end);
    FilterKeepsDistinctDates(dayTable, InRange(start, end));
    JoinIsSelection(hourTable, filteredDays);
    EnrichHoursRoundTrip(InnerJoinOnDate(hourTable, filteredDays));
  }
}
