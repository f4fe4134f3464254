/** The aggregations behind the dashboard's charts, over the filtered and enriched tables. */
module Aggregates {
  import opened Wrappers
  import opened Tables
  import opened Records
  import opened Labels
  import opened Grouping

  function HourCnt(x: LabeledHour): int { x.row.cnt }
  function DayCnt(x: LabeledDay): int { x.row.cnt }
  function Casual(x: LabeledDay): int { x.row.casual }
  function Registered(x: LabeledDay): int { x.row.registered }

  // ---------------------------------------------------------------------------
  // Average rentals per hour: groupby('hr')['cnt'].mean()

  function HourKey(x: LabeledHour): Option<int> { Some(x.row.hr) }

  /** The mask selecting the rows of the hour `h`. */
  function AtHour(h: int): LabeledHour -> bool
  {
    (x: LabeledHour) => x.row.hr == h
  }

  /**
   * One entry for each hour that occurs in the table; its value is the sum of
   * `cnt` over that hour's rows and the number of those rows.
   */
  function HourlyAverage(hours: seq<LabeledHour>): (r: map<int, Mean>)
    ensures forall h :: h in r <==> exists x :: x in hours && x.row.hr == h
    ensures forall h :: h in r ==>
      && r[h].count == |Filter(hours, AtHour(h))|
      && r[h].sum == Sum(Filter(hours, AtHour(h)), HourCnt)
  {
    var r := GroupMean(hours, HourKey, HourCnt);
    forall h | h in r
      ensures Members(hours, HourKey, h) == Filter(hours, AtHour(h))
    {
      FilterCongruent(hours, InGroup(HourKey, h), AtHour(h));
    }
    r
  }

  /**
   * The rows of hour `h` with the smallest and the largest `cnt`; the hour's
   * average lies between their counts.
   */
  lemma HourlyAverageBetween(hours: seq<LabeledHour>, h: int) returns (lo: LabeledHour, hi: LabeledHour)
    requires h in HourlyAverage(hours)
    ensures lo in hours && lo.row.hr == h
    ensures hi in hours && hi.row.hr == h
    ensures lo.row.cnt as real <= HourlyAverage(hours)[h].Value() <= hi.row.cnt as real
    ensures forall x :: x in hours && x.row.hr == h ==> lo.row.cnt <= x.row.cnt <= hi.row.cnt
  {
    lo, hi := GroupExtremes(hours, HourKey, HourCnt, h);
    forall x | x in hours && x.row.hr == h ensures lo.row.cnt <= x.row.cnt <= hi.row.cnt {
      assert HourKey(x) == Some(h);
    }
  }

  /** Three rows at 09:00 with counts 10, 20 and 30 average to 20. */
  lemma HourNineExample()
    ensures var hours := [
        LabeledHour(HourRecord(1, 9, 1, 10), Some(ClearPartlyCloudy)),
        LabeledHour(HourRecord(2, 9, 2, 20), Some(MistCloudy)),
        LabeledHour(HourRecord(3, 9, 1, 30), Some(ClearPartlyCloudy))];
      9 in HourlyAverage(hours) && HourlyAverage(hours)[9] == Mean(60, 3)
      && HourlyAverage(hours)[9].Value() == 20.0
  {
    var hours := [
        LabeledHour(HourRecord(1, 9, 1, 10), Some(ClearPartlyCloudy)),
        LabeledHour(HourRecord(2, 9, 2, 20), Some(MistCloudy)),
        LabeledHour(HourRecord(3, 9, 1, 30), Some(ClearPartlyCloudy))];
    assert hours[0] in hours;
    var r := HourlyAverage(hours);
    FilterAll(hours, AtHour(9));
    assert Sum(hours, HourCnt) == 60;
  }

  // ---------------------------------------------------------------------------
  // Casual against registered users: the two column sums

  datatype UserTotals = UserTotals(casual: int, registered: int)

  /** The totals of `casual` and `registered` over the daily table; both 0 for an empty table. */
  function UserSplit(days: seq<LabeledDay>): (t: UserTotals)
    ensures days == [] ==> t == UserTotals(0, 0)
    ensures |days| == 1 ==> t == UserTotals(days[0].row.casual, days[0].row.registered)
  {
    assert |days| == 1 ==> Sum(days, Casual) == days[0].row.casual + Sum(days[1..], Casual);
    assert |days| == 1 ==> Sum(days, Registered) == days[0].row.registered + Sum(days[1..], Registered);
    UserTotals(Sum(days, Casual), Sum(days, Registered))
  }

  /** The totals of a table made of two parts are the sums of the parts' totals. */
  lemma UserSplitConcat(a: seq<LabeledDay>, b: seq<LabeledDay>)
    ensures UserSplit(a + b).casual == UserSplit(a).casual + UserSplit(b).casual
    ensures UserSplit(a + b).registered == UserSplit(a).registered + UserSplit(b).registered
  {
    SumConcat(a, b, Casual);
    SumConcat(a, b, Registered);
  }

  /** When every day's `cnt` is its casual plus registered riders, the two slices add up to the table's `cnt`. */
  lemma UserSplitCoversCnt(days: seq<LabeledDay>)
    requires forall x :: x in days ==> x.row.cnt == x.row.casual + x.row.registered
    ensures UserSplit(days).casual + UserSplit(days).registered == Sum(days, DayCnt)
  {
    SumAdditive(days, Casual, Registered, DayCnt);
  }

  // ---------------------------------------------------------------------------
  // Average rentals per day category (the bar chart's mean estimator)

  function CategoryKey(x: LabeledDay): Option<DayCategory> { Some(x.dayCategory) }

  /** One entry for each day category present, with that category's exact mean of `cnt`. */
  function DayCategoryMeans(days: seq<LabeledDay>): (r: map<DayCategory, Mean>)
    ensures forall c :: c in r <==> exists x :: x in days && x.dayCategory == c
    ensures forall c :: c in r ==> r[c].count > 0
    ensures forall c :: c in r ==>
      && r[c].count == |Members(days, CategoryKey, c)|
      && r[c].sum == Sum(Members(days, CategoryKey, c), DayCnt)
  {
    GroupMean(days, CategoryKey, DayCnt)
  }

  // ---------------------------------------------------------------------------
  // Rush hours and weather: isin(rush_hours), then groupby(['hr', 'weather_label'])['cnt'].mean()

  const RushHours: seq<int> := [7, 8, 9, 16, 17, 18]

  function IsRushHour(x: LabeledHour): bool { x.row.hr in RushHours }

  /** The hourly rows at a rush hour, in table order. */
  function RushRows(hours: seq<LabeledHour>): (r: seq<LabeledHour>)
    ensures forall x :: x in r <==> x in hours && x.row.hr in {7, 8, 9, 16, 17, 18}
    ensures |r| <= |hours|
  {
    Filter(hours, IsRushHour)
  }

  /** The (hour, weather label) key; missing when the weather label is. */
  function HourWeatherKey(x: LabeledHour): Option<(int, Weather)>
  {
    match x.weatherLabel
    case None => None
    case Some(w) => Some((x.row.hr, w))
  }

  /** One entry per (hour, weather label) pair present among the rows; rows without a label drop out. */
  function HourWeatherMeans(rows: seq<LabeledHour>): (g: map<(int, Weather), Mean>)
    ensures forall h, w :: (h, w) in g <==> exists x :: x in rows && x.row.hr == h && x.weatherLabel == Some(w)
    ensures forall k :: k in g ==> g[k].count > 0
    ensures forall k :: k in g ==>
      && g[k].count == |Members(rows, HourWeatherKey, k)|
      && g[k].sum == Sum(Members(rows, HourWeatherKey, k), HourCnt)
  {
    var g := GroupMean(rows, HourWeatherKey, HourCnt);
    forall h, w ensures (h, w) in g <==> exists x :: x in rows && x.row.hr == h && x.weatherLabel == Some(w) {
      HourWeatherGroup(rows, h, w);
    }
    g
  }

  lemma HourWeatherGroup(rows: seq<LabeledHour>, h: int, w: Weather)
    ensures (h, w) in GroupMean(rows, HourWeatherKey, HourCnt) <==>
      exists x :: x in rows && x.row.hr == h && x.weatherLabel == Some(w)
  {
    if (h, w) in GroupMean(rows, HourWeatherKey, HourCnt) {
      var x :| x in rows && HourWeatherKey(x) == Some((h, w));
      assert x.row.hr == h && x.weatherLabel == Some(w);
    }
    if exists x :: x in rows && x.row.hr == h && x.weatherLabel == Some(w) {
      var x :| x in rows && x.row.hr == h && x.weatherLabel == Some(w);
      assert HourWeatherKey(x) == Some((h, w));
    }
  }

  /** The rush-hour weather table of the dashboard. */
  function RushWeatherMeans(hours: seq<LabeledHour>): (g: map<(int, Weather), Mean>)
    ensures forall k :: k in g ==> k.0 in RushHours
    ensures forall k :: k in g ==>
      && g[k].count == |Members(RushRows(hours), HourWeatherKey, k)|
      && g[k].sum == Sum(Members(RushRows(hours), HourWeatherKey, k), HourCnt)
  {
    HourWeatherMeans(RushRows(hours))
  }

  /**
   * The rush-hour table has an entry for (h, w) exactly when some hourly row
   * at rush hour h carries weather label w; every entry's hour is a rush hour.
   */
  lemma RushWeatherKeys(hours: seq<LabeledHour>, h: int, w: Weather)
    ensures (h, w) in RushWeatherMeans(hours) <==>
      h in RushHours && exists x :: x in hours && x.row.hr == h && x.weatherLabel == Some(w)
  {
    var rush := RushRows(hours);
    if (h, w) in RushWeatherMeans(hours) {
      var x :| x in rush && x.row.hr == h && x.weatherLabel == Some(w);
      assert x in hours;
    }
    if h in RushHours && exists x :: x in hours && x.row.hr == h && x.weatherLabel == Some(w) {
      var x :| x in hours && x.row.hr == h && x.weatherLabel == Some(w);
      assert x in rush;
    }
  }

  /** A row whose weather code has no label belongs to no rush-hour group. */
  lemma UnlabelledWeatherDropped(hours: seq<LabeledHour>, x: LabeledHour)
    requires x.weatherLabel.None?
    ensures forall k :: k in RushWeatherMeans(hours) ==> x !in Members(RushRows(hours), HourWeatherKey, k)
  {
  }

  /**
   * The rows of a rush-hour group with the smallest and the largest `cnt`;
   * the group's mean lies between their counts.
   */
  lemma RushWeatherMeanBetween(hours: seq<LabeledHour>, h: int, w: Weather) returns (lo: LabeledHour, hi: LabeledHour)
    requires (h, w) in RushWeatherMeans(hours)
    ensures lo in hours && lo.row.hr == h && lo.weatherLabel == Some(w)
    ensures hi in hours && hi.row.hr == h && hi.weatherLabel == Some(w)
    ensures lo.row.cnt as real <= RushWeatherMeans(hours)[(h, w)].Value() <= hi.row.cnt as real
    ensures forall x :: x in hours && x.row.hr == h && x.weatherLabel == Some(w) ==> lo.row.cnt <= x.row.cnt <= hi.row.cnt
  {
    lo, hi := GroupExtremes(RushRows(hours), HourWeatherKey, HourCnt, (h, w));
    RushMember(hours, lo, h, w);
    RushMember(hours, hi, h, w);
    forall x | x in hours && x.row.hr == h && x.weatherLabel == Some(w)
      ensures lo.row.cnt <= x.row.cnt <= hi.row.cnt
    {
      RushKey(hours, x, h, w);
    }
  }

  lemma RushKey(hours: seq<LabeledHour>, x: LabeledHour, h: int, w: Weather)
    requires (h, w) in RushWeatherMeans(hours)
    requires x in hours && x.row.hr == h && x.weatherLabel == Some(w)
    ensures x in RushRows(hours) && HourWeatherKey(x) == Some((h, w))
  {
    RushWeatherKeys(hours, h, w);
  }

  lemma RushMember(hours: seq<LabeledHour>, x: LabeledHour, h: int, w: Weather)
    requires x in RushRows(hours) && HourWeatherKey(x) == Some((h, w))
    ensures x in hours && x.row.hr == h && x.weatherLabel == Some(w)
  {
  }

  // ---------------------------------------------------------------------------
  // Average rentals per season (the bar chart's mean estimator)

  function SeasonKey(x: LabeledDay): Option<Season> { x.seasonLabel }

  /** One entry for each season label present; days without a season label drop out. */
  function SeasonMeans(days: seq<LabeledDay>): (r: map<Season, Mean>)
    ensures forall s :: s in r <==> exists x :: x in days && x.seasonLabel == Some(s)
    ensures forall s :: s in r ==> r[s].count > 0
    ensures forall s :: s in r ==>
      && r[s].count == |Members(days, SeasonKey, s)|
      && r[s].sum == Sum(Members(days, SeasonKey, s), DayCnt)
  {
    GroupMean(days, SeasonKey, DayCnt)
  }

  // ---------------------------------------------------------------------------
  // Seasons per year: groupby(['yr', 'season_label'])['cnt'].mean(), then yr mapped to a calendar year

  /** A row of `season_year_df`: the two keys, the mean of `cnt` and the added `year` column. */
  datatype SeasonYearRow = SeasonYearRow(yr: int, seasonLabel: Season, cnt: Mean, year: Option<int>)

  function YearSeasonKey(x: LabeledDay): Option<(int, Season)>
  {
    match x.seasonLabel
    case None => None
    case Some(s) => Some((x.row.yr, s))
  }

  /**
   * One row per (yr, season label) pair present; days without a season label
   * drop out; the `year` column is the calendar year of `yr`.
   */
  function SeasonYearMeans(days: seq<LabeledDay>): (t: map<(int, Season), SeasonYearRow>)
    ensures forall y, s :: (y, s) in t <==> exists x :: x in days && x.row.yr == y && x.seasonLabel == Some(s)
    ensures forall k :: k in t ==>
      && t[k].yr == k.0 && t[k].seasonLabel == k.1 && t[k].cnt.count > 0
      && t[k].year == YearLabel(k.0)
    ensures forall k :: k in t ==>
      && t[k].cnt.count == |Members(days, YearSeasonKey, k)|
      && t[k].cnt.sum == Sum(Members(days, YearSeasonKey, k), DayCnt)
  {
    var g := GroupMean(days, YearSeasonKey, DayCnt);
    forall y, s ensures (y, s) in g <==> exists x :: x in days && x.row.yr == y && x.seasonLabel == Some(s) {
      YearSeasonGroup(days, y, s);
    }
    map k | k in g :: SeasonYearRow(k.0, k.1, g[k], YearLabel(k.0))
  }

  lemma YearSeasonGroup(days: seq<LabeledDay>, y: int, s: Season)
    ensures (y, s) in GroupMean(days, YearSeasonKey, DayCnt) <==>
      exists x :: x in days && x.row.yr == y && x.seasonLabel == Some(s)
  {
    if (y, s) in GroupMean(days, YearSeasonKey, DayCnt) {
      var x :| x in days && YearSeasonKey(x) == Some((y, s));
      assert x.row.yr == y && x.seasonLabel == Some(s);
    }
    if exists x :: x in days && x.row.yr == y && x.seasonLabel == Some(s) {
      var x :| x in days && x.row.yr == y && x.seasonLabel == Some(s);
      assert YearSeasonKey(x) == Some((y, s));
    }
  }

  /** The eight (yr, season) pairs that in-range year codes allow. */
  const YearSeasonPairs: set<(int, Season)> := {
    (0, Spring), (0, Summer), (0, Fall), (0, Winter),
    (1, Spring), (1, Summer), (1, Fall), (1, Winter)}

  /** A pair with an in-range year code is one of the eight. */
  lemma InYearSeasonPairs(k: (int, Season))
    requires k.0 == 0 || k.0 == 1
    ensures k in YearSeasonPairs
  {
    var (y, s) := k;
    match s
    case Spring => assert (y, Spring) in YearSeasonPairs;
    case Summer => assert (y, Summer) in YearSeasonPairs;
    case Fall => assert (y, Fall) in YearSeasonPairs;
    case Winter => assert (y, Winter) in YearSeasonPairs;
  }

  /** With every `yr` code 0 or 1, every key of the season-by-year table is one of the eight pairs. */
  lemma SeasonYearKeysInPairs(days: seq<LabeledDay>)
    requires forall x :: x in days ==> x.row.yr == 0 || x.row.yr == 1
    ensures SeasonYearMeans(days).Keys <= YearSeasonPairs
    ensures forall k :: k in SeasonYearMeans(days) ==> k.0 == 0 || k.0 == 1
  {
    var t := SeasonYearMeans(days);
    forall k | k in t ensures k in YearSeasonPairs && (k.0 == 0 || k.0 == 1) {
      assert (k.0, k.1) in t;
      var x :| x in days && x.row.yr == k.0 && x.seasonLabel == Some(k.1);
      InYearSeasonPairs(k);
    }
  }

  /**
   * With every `yr` code 0 or 1 the season-by-year table has at most eight rows,
   * each labelled 2011 or 2012.
   */
  lemma SeasonYearAtMostEight(days: seq<LabeledDay>)
    requires forall x :: x in days ==> x.row.yr == 0 || x.row.yr == 1
    ensures |SeasonYearMeans(days)| <= 8
    ensures forall k :: k in SeasonYearMeans(days) ==> SeasonYearMeans(days)[k].year == Some(2011 + k.0)
  {
    SeasonYearKeysInPairs(days);
    AtMostEightKeys(SeasonYearMeans(days));
  }

  lemma AtMostEightKeys<V>(t: map<(int, Season), V>)
    requires t.Keys <= YearSeasonPairs
    ensures |t| <= 8
  {
    SubsetCard(t.Keys, YearSeasonPairs);
  }

  lemma SeasonYearHasPair(days: seq<LabeledDay>, y: int, s: Season)
    requires exists x :: x in days && x.row.yr == y && x.seasonLabel == Some(s)
    ensures (y, s) in SeasonYearMeans(days)
  {
  }

  /** When every one of the eight pairs occurs among the days, each is a key of the table. */
  lemma SeasonYearCoversPairs(days: seq<LabeledDay>)
    requires forall y, s :: (y, s) in YearSeasonPairs ==>
      exists x :: x in days && x.row.yr == y && x.seasonLabel == Some(s)
    ensures YearSeasonPairs <= SeasonYearMeans(days).Keys
  {
    forall k | k in YearSeasonPairs ensures k in SeasonYearMeans(days) {
      var (y, s) := k;
      SeasonYearHasPair(days, y, s);
    }
  }

  /** Two years of data covering all four seasons give exactly eight rows. */
  lemma SeasonYearExactlyEight(days: seq<LabeledDay>)
    requires forall x :: x in days ==> x.row.yr == 0 || x.row.yr == 1
    requires forall y, s :: (y, s) in YearSeasonPairs ==>
      exists x :: x in days && x.row.yr == y && x.seasonLabel == Some(s)
    ensures |SeasonYearMeans(days)| == 8
  {
    SeasonYearKeysExact(days);
    ExactlyEightKeys(SeasonYearMeans(days));
  }

  lemma SeasonYearKeysExact(days: seq<LabeledDay>)
    requires forall x :: x in days ==> x.row.yr == 0 || x.row.yr == 1
    requires forall y, s :: (y, s) in YearSeasonPairs ==>
      exists x :: x in days && x.row.yr == y && x.seasonLabel == Some(s)
    ensures SeasonYearMeans(days).Keys == YearSeasonPairs
  {
    SeasonYearKeysInPairs(days);
    SeasonYearCoversPairs(days);
  }

  lemma ExactlyEightKeys<V>(t: map<(int, Season), V>)
    requires t.Keys == YearSeasonPairs
    ensures |t| == 8
  {
  }
}
