/**
 * The enrichment stage: coded columns get labels. Each dictionary lookup works
 * like pandas `Series.map` with a dict, so a code outside the dictionary
 * gives a missing label (`None`) and the row is kept.
 */
module Labels {
  import opened Wrappers
  import opened Records

  datatype Season = Spring | Summer | Fall | Winter
  {
    /** The label written into the `season_label` column. */
    function Name(): string
    {
      match this
      case Spring => "Spring"
      case Summer => "Summer"
      case Fall => "Fall"
      case Winter => "Winter"
    }

    /** The `season` code this label is stored under. */
    function Code(): int
    {
      match this
      case Spring => 1
      case Summer => 2
      case Fall => 3
      case Winter => 4
    }
  }

  datatype Weather = ClearPartlyCloudy | MistCloudy | LightRainSnow | HeavyRainSnow
  {
    /** The label written into the `weather_label` column. */
    function Name(): string
    {
      match this
      case ClearPartlyCloudy => "Clear/Partly Cloudy"
      case MistCloudy => "Mist/Cloudy"
      case LightRainSnow => "Light Rain/Snow"
      case HeavyRainSnow => "Heavy Rain/Snow"
    }

    /** The `weathersit` code this label is stored under. */
    function Code(): int
    {
      match this
      case ClearPartlyCloudy => 1
      case MistCloudy => 2
      case LightRainSnow => 3
      case HeavyRainSnow => 4
    }
  }

  /** The three values of the `day_category` column: holiday, weekend and working day. */
  datatype DayCategory = Holiday | Weekend | Workday
  {
    function Name(): string
    {
      match this
      case Holiday => "Hari Libur"
      case Weekend => "Akhir Pekan"
      case Workday => "Hari Kerja"
    }
  }

  const SeasonMap: map<int, Season> := map[1 := Spring, 2 := Summer, 3 := Fall, 4 := Winter]
  const YearMap: map<int, int> := map[0 := 2011, 1 := 2012]
  const WeatherMap: map<int, Weather> :=
    map[1 := ClearPartlyCloudy, 2 := MistCloudy, 3 := LightRainSnow, 4 := HeavyRainSnow]

  /** `Series.map(m)` on one cell: the mapped value, or missing when the code is not a key. */
  function Lookup<V>(m: map<int, V>, code: int): Option<V>
  {
    if code in m then Some(m[code]) else None
  }

  /** The season label of a `season` code: defined exactly on 1..4, and the inverse of `Code`. */
  function SeasonLabel(code: int): (r: Option<Season>)
    ensures r.Some? <==> 1 <= code <= 4
    ensures r.Some? ==> r.value.Code() == code
  {
    Lookup(SeasonMap, code)
  }

  /** The calendar year of a `yr` code: defined exactly on 0 and 1, counting from 2011. */
  function YearLabel(yr: int): (r: Option<int>)
    ensures r.Some? <==> yr == 0 || yr == 1
    ensures r.Some? ==> r.value == 2011 + yr
  {
    Lookup(YearMap, yr)
  }

  /** The weather label of a `weathersit` code: defined exactly on 1..4, and the inverse of `Code`. */
  function WeatherLabel(code: int): (r: Option<Weather>)
    ensures r.Some? <==> 1 <= code <= 4
    ensures r.Some? ==> r.value.Code() == code
  {
    Lookup(WeatherMap, code)
  }

  /** Every season is the label of its own code. */
  lemma SeasonCodeRoundTrip(s: Season)
    ensures SeasonLabel(s.Code()) == Some(s)
  {
  }

  /** Every weather label is the label of its own code. */
  lemma WeatherCodeRoundTrip(w: Weather)
    ensures WeatherLabel(w.Code()) == Some(w)
  {
  }

  /** Distinct labels are written as distinct strings, so grouping by label groups by code. */
  lemma LabelNamesDistinct(s: Season, t: Season, v: Weather, w: Weather, a: DayCategory, b: DayCategory)
    ensures s.Name() == t.Name() ==> s == t
    ensures v.Name() == w.Name() ==> v == w
    ensures a.Name() == b.Name() ==> a == b
  {
  }

  /**
   * `categorize_day`: a holiday wins whatever `workingday` says; otherwise a
   * row with `workingday == 0` is a weekend day, and every other row a working day.
   */
  function CategorizeDay(d: DayRecord): (c: DayCategory)
    ensures c == Holiday <==> d.holiday == 1
    ensures c == Weekend <==> d.holiday != 1 && d.workingday == 0
    ensures c == Workday <==> d.holiday != 1 && d.workingday != 0
  {
    if d.holiday == 1 then Holiday
    else if d.workingday == 0 then Weekend
    else Workday
  }

  /** A daily row with the three columns the enrichment adds. */
  datatype LabeledDay = LabeledDay(
    row: DayRecord,
    seasonLabel: Option<Season>,
    year: Option<int>,
    dayCategory: DayCategory)

  /** An hourly row with the `weather_label` column. */
  datatype LabeledHour = LabeledHour(row: HourRecord, weatherLabel: Option<Weather>)

  function LabelDay(d: DayRecord): LabeledDay
  {
    LabeledDay(d, SeasonLabel(d.season), YearLabel(d.yr), CategorizeDay(d))
  }

  function LabelHour(h: HourRecord): LabeledHour
  {
    LabeledHour(h, WeatherLabel(h.weathersit))
  }

  /** The daily table with `season_label`, `year` and `day_category` added: same rows, same order. */
  function EnrichDays(days: seq<DayRecord>): (r: seq<LabeledDay>)
    ensures |r| == |days|
    ensures forall i :: 0 <= i < |r| ==> r[i].row == days[i]
    ensures forall i :: 0 <= i < |r| ==>
      && r[i].seasonLabel == SeasonLabel(days[i].season)
      && r[i].year == YearLabel(days[i].yr)
      && r[i].dayCategory == CategorizeDay(days[i])
  {
    seq(|days|, i requires 0 <= i < |days| => LabelDay(days[i]))
  }

  /** The hourly table with `weather_label` added: same rows, same order. */
  function EnrichHours(hours: seq<HourRecord>): (r: seq<LabeledHour>)
    ensures |r| == |hours|
    ensures forall i :: 0 <= i < |r| ==> r[i].row == hours[i] && r[i].weatherLabel == WeatherLabel(hours[i].weathersit)
  {
    seq(|hours|, i requires 0 <= i < |hours| => LabelHour(hours[i]))
  }

  /** The original columns of an enriched daily table. */
  function DayRows(t: seq<LabeledDay>): seq<DayRecord>
  {
    seq(|t|, i requires 0 <= i < |t| => t[i].row)
  }

  /** The original columns of an enriched hourly table. */
  function HourRows(t: seq<LabeledHour>): seq<HourRecord>
  {
    seq(|t|, i requires 0 <= i < |t| => t[i].row)
  }

  /** Enrichment only adds columns: dropping them gives back the daily table. */
  lemma EnrichDaysRoundTrip(days: seq<DayRecord>)
    ensures DayRows(EnrichDays(days)) == days
  {
  }

  /** Enrichment only adds columns: dropping them gives back the hourly table. */
  lemma EnrichHoursRoundTrip(hours: seq<HourRecord>)
    ensures HourRows(EnrichHours(hours)) == hours
  {
  }

  /** Enriching works row by row, so it commutes with splitting the table. */
  lemma EnrichDaysConcat(a: seq<DayRecord>, b: seq<DayRecord>)
    ensures EnrichDays(a + b) == EnrichDays(a) + EnrichDays(b)
  {
  }
}
