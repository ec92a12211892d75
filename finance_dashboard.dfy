/*
 * The point-in-time ("as-of") indicator lookups of the finance dashboard.
 *
 * A series' full history is a parameter; the download the dashboard performs
 * is the window of that history between two dates (`Fetch`). Dates are day
 * numbers in Python's `date.toordinal()` numbering. Display rounding
 * (`round(x, 2)`) is an abstract function passed in as `round`.
 */
module FinanceDashboard {
  import opened Builtins

  /** One dated row of a series: its day number and its value. */
  datatype Obs = Obs(day: int, value: real)

  /** A found lookup: the rounded value and the day of the row it came from. */
  datatype Reading = Reading(value: real, day: int)

  /** The pair (start, end) a range lookup returns. */
  datatype RangeResult<T> = RangeResult(start: Option<T>, end: Option<T>)

  type Rounding = real -> real

  /** Default half-width, in days, of the window fetched around a target date. */
  const DefaultWindow: int := 30
  /** Inflation fetches from 400 days before the target ... */
  const InflationLookback: int := 400
  /** ... to 30 days after it, */
  const InflationLookahead: int := 30
  /** and compares against the index 365 days before the target. */
  const YearOffset: int := 365
  /** GDP is shown in trillions. */
  const Trillion: real := 1000000000000.0

  /** Rows in strictly increasing date order (no two rows share a date). */
  predicate Ascending(s: seq<Obs>) {
    forall i, j :: 0 <= i < j < |s| ==> s[i].day < s[j].day
  }

  lemma SameDaySameObs(s: seq<Obs>, a: Obs, b: Obs)
    requires Ascending(s) && a in s && b in s && a.day == b.day
    ensures a == b
  {
    var i :| 0 <= i < |s| && s[i] == a;
    var j :| 0 <= j < |s| && s[j] == b;
    assert !(i < j) && !(j < i);
  }

  lemma LastIsLatest(s: seq<Obs>)
    requires Ascending(s) && s != []
    ensures forall o :: o in s ==> o.day <= s[|s| - 1].day
  {
    forall o | o in s ensures o.day <= s[|s| - 1].day {
      var k :| 0 <= k < |s| && s[k] == o;
      assert k == |s| - 1 || s[k].day < s[|s| - 1].day;
    }
  }

  lemma PrependAscending(x: Obs, rest: seq<Obs>)
    requires Ascending(rest) && forall o :: o in rest ==> x.day < o.day
    ensures Ascending([x] + rest)
  {
    forall i, j | 0 <= i < j < |[x] + rest| ensures ([x] + rest)[i].day < ([x] + rest)[j].day {
      assert ([x] + rest)[j] == rest[j - 1];
      if i > 0 {
        assert ([x] + rest)[i] == rest[i - 1];
      } else {
        assert rest[j - 1] in rest;
      }
    }
  }

  /** The download `pdr.get_data_fred(series, start=start, end=end)`: the rows of
      the history dated from `start` to `end` inclusive, in history order. */
  function Fetch(history: seq<Obs>, start: int, end: int): (data: seq<Obs>)
    ensures forall o :: o in data <==> o in history && start <= o.day <= end
    ensures Ascending(history) ==> Ascending(data)
  {
    if history == [] then []
    else
      var rest := Fetch(history[1..], start, end);
      if start <= history[0].day <= end then
        assert Ascending(history) ==> Ascending([history[0]] + rest) by {
          if Ascending(history) {
            assert forall o :: o in history[1..] ==> history[0].day < o.day;
            PrependAscending(history[0], rest);
          }
        }
        [history[0]] + rest
      else rest
  }

  /** `data.loc[:target]` on a date-sorted frame: the rows dated on or before `target`. */
  function OnOrBefore(data: seq<Obs>, target: int): (subset: seq<Obs>)
    ensures forall o :: o in subset <==> o in data && o.day <= target
    ensures Ascending(data) ==> Ascending(subset)
  {
    if data == [] then []
    else
      var rest := OnOrBefore(data[1..], target);
      if data[0].day <= target then
        assert Ascending(data) ==> Ascending([data[0]] + rest) by {
          if Ascending(data) {
            assert forall o :: o in data[1..] ==> data[0].day < o.day;
            PrependAscending(data[0], rest);
          }
        }
        [data[0]] + rest
      else rest
  }

  /** `subset = data.loc[:target]` followed by `subset.iloc[-1]` (or nothing when
      the subset is empty): the latest row dated on or before `target`. */
  function LastOnOrBefore(data: seq<Obs>, target: int): (r: Option<Obs>)
    requires Ascending(data)
    ensures r.None? <==> forall o :: o in data ==> target < o.day
    ensures r.Some? ==> r.value in data && r.value.day <= target
    ensures r.Some? ==> forall o :: o in data && o.day <= target ==> o.day <= r.value.day
  {
    var subset := OnOrBefore(data, target);
    if subset == [] then None
    else
      LastIsLatest(subset);
      Some(subset[|subset| - 1])
  }

  /** `get_fred_value(series_id, target_date, window)`. */
  function FredValue(history: seq<Obs>, target: int, round: Rounding, window: int := DefaultWindow): (r: Option<Reading>)
    requires Ascending(history)
    ensures r.None? <==> forall o :: o in history ==> !(target - window <= o.day <= target)
    ensures r.Some? ==> target - window <= r.value.day <= target
    ensures r.Some? ==> exists o :: o in history && o.day == r.value.day && r.value.value == round(o.value)
    ensures r.Some? ==> forall o :: o in history && r.value.day < o.day ==> target < o.day
  {
    var data := Fetch(history, target - window, target + window);
    if data == [] then None
    else
      match LastOnOrBefore(data, target)
      case None => None
      case Some(o) => Some(Reading(round(o.value), o.day))
  }

  /** Reading the window's latest row is reading the whole history's latest row on
      or before the target, provided that row falls inside the window. */
  lemma FetchedLastOnOrBefore(history: seq<Obs>, start: int, end: int, target: int)
    requires Ascending(history) && target <= end
    ensures LastOnOrBefore(Fetch(history, start, end), target) ==
      match LastOnOrBefore(history, target)
      case Some(o) => if start <= o.day then Some(o) else None
      case None => None
  {
    var data := Fetch(history, start, end);
    var inWindow, whole := LastOnOrBefore(data, target), LastOnOrBefore(history, target);
    if whole.Some? && start <= whole.value.day {
      assert whole.value in data;
      var p := inWindow.value;
      SameDaySameObs(history, p, whole.value);
    }
  }

  /** The window limitation and its converse: the lookup finds exactly the latest
      row of the whole history on or before the target when that row is at most
      `window` days old, and nothing otherwise, even when older rows exist. */
  lemma FredValueWindowed(history: seq<Obs>, target: int, round: Rounding, window: int)
    requires Ascending(history)
    ensures FredValue(history, target, round, window) ==
      match LastOnOrBefore(history, target)
      case Some(o) => if target - window <= o.day then Some(Reading(round(o.value), o.day)) else None
      case None => None
  {
    var r, whole := FredValue(history, target, round, window), LastOnOrBefore(history, target);
    if r.Some? {
      var o :| o in history && o.day == r.value.day && r.value.value == round(o.value);
      var p := whole.value;
      assert p.day <= r.value.day;
      SameDaySameObs(history, o, p);
    }
  }

  /** Widening the window never changes a lookup that already succeeded. */
  lemma FredValueWiderWindow(history: seq<Obs>, target: int, round: Rounding, narrow: int, wide: int)
    requires Ascending(history) && narrow <= wide
    requires FredValue(history, target, round, narrow).Some?
    ensures FredValue(history, target, round, wide) == FredValue(history, target, round, narrow)
  {
    FredValueWindowed(history, target, round, narrow);
    FredValueWindowed(history, target, round, wide);
  }

  /** `get_fred_range(series_id, start_date, end_date, window)`. */
  function FredRange(history: seq<Obs>, startDate: int, endDate: int, round: Rounding,
                     window: int := DefaultWindow): (r: RangeResult<Reading>)
    requires Ascending(history)
    ensures r.start == FredValue(history, startDate, round, window)
    ensures r.end == FredValue(history, endDate, round, window)
  {
    RangeResult(FredValue(history, startDate, round, window), FredValue(history, endDate, round, window))
  }

  /** The two halves of a range lookup do not interact: each depends on its own
      date only. */
  lemma FredRangeHalvesIndependent(history: seq<Obs>, startDate: int, endDate: int,
                                   otherStart: int, otherEnd: int, round: Rounding, window: int)
    requires Ascending(history)
    ensures FredRange(history, startDate, endDate, round, window).start
            == FredRange(history, startDate, otherEnd, round, window).start
    ensures FredRange(history, startDate, endDate, round, window).end
            == FredRange(history, otherStart, endDate, round, window).end
    ensures FredRange(history, startDate, endDate, round, window).start
            == FredRange(history, otherStart, startDate, round, window).end
  {
  }

  /** A year-over-year change as numpy float64 arithmetic yields it: a finite
      percentage, or, when the base is zero, an infinity or NaN. */
  datatype Percent = Finite(percent: real) | PosInf | NegInf | NaN

  /** What `get_inflation_value` returns when it finds both rows: the change and
      the date of the current row. */
  datatype YoyReading = YoyReading(change: Percent, day: int)

  /** `((current - previous) / previous) * 100`, before rounding. */
  function GrowthPercent(current: real, previous: real): real
    requires previous != 0.0
  {
    (current - previous) / previous * 100.0
  }

  /** The growth percentage is undone by compounding the base by it. */
  lemma GrowthPercentInverse(current: real, previous: real)
    requires previous != 0.0
    ensures previous * (1.0 + GrowthPercent(current, previous) / 100.0) == current
  {
    var g := (current - previous) / previous;
    assert g * previous == current - previous;
    assert GrowthPercent(current, previous) / 100.0 == g;
  }

  /** `round(((current - previous) / previous) * 100, 2)`; a zero base is not
      guarded in the source, so it yields what float division by zero yields. */
  function YoyChange(current: real, previous: real, round: Rounding): (p: Percent)
    ensures p.Finite? <==> previous != 0.0
    ensures previous != 0.0 ==> previous * (1.0 + GrowthPercent(current, previous) / 100.0) == current
    ensures previous != 0.0 ==> p.percent == round(GrowthPercent(current, previous))
  {
    if previous != 0.0 then
      GrowthPercentInverse(current, previous);
      Finite(round(GrowthPercent(current, previous)))
    else if current > 0.0 then PosInf
    else if current < 0.0 then NegInf
    else NaN
  }

  /** `get_inflation_value(target_date)` over the CPI history. */
  function InflationValue(history: seq<Obs>, target: int, round: Rounding): (r: Option<YoyReading>)
    requires Ascending(history)
    ensures r.None? <==> forall o :: o in history ==> !(target - InflationLookback <= o.day <= target - YearOffset)
    ensures r.Some? ==>
      var current, previous := LastOnOrBefore(history, target), LastOnOrBefore(history, target - YearOffset);
      && current.Some? && previous.Some?
      && r.value == YoyReading(YoyChange(current.value.value, previous.value.value, round), current.value.day)
  {
    var data := Fetch(history, target - InflationLookback, target + InflationLookahead);
    FetchedLastOnOrBefore(history, target - InflationLookback, target + InflationLookahead, target);
    FetchedLastOnOrBefore(history, target - InflationLookback, target + InflationLookahead, target - YearOffset);
    if data == [] then None
    else
      match LastOnOrBefore(data, target)
      case None => None
      case Some(current) =>
        match LastOnOrBefore(data, target - YearOffset)
        case None => None
        case Some(previous) =>
          Some(YoyReading(YoyChange(current.value, previous.value, round), current.day))
  }

  /** `get_inflation_range(start_date, end_date)`. */
  function InflationRange(history: seq<Obs>, startDate: int, endDate: int, round: Rounding): (r: RangeResult<YoyReading>)
    requires Ascending(history)
    ensures r.start == InflationValue(history, startDate, round)
    ensures r.end == InflationValue(history, endDate, round)
  {
    RangeResult(InflationValue(history, startDate, round), InflationValue(history, endDate, round))
  }

  /** The two halves of an inflation range do not interact either. */
  lemma InflationRangeHalvesIndependent(history: seq<Obs>, startDate: int, endDate: int,
                                        otherStart: int, otherEnd: int, round: Rounding)
    requires Ascending(history)
    ensures InflationRange(history, startDate, endDate, round).start
            == InflationRange(history, startDate, otherEnd, round).start
    ensures InflationRange(history, startDate, endDate, round).end
            == InflationRange(history, otherStart, endDate, round).end
  {
  }

  /** What a range label shows: "N/A", or the start reading followed by the end
      reading, which is printed even when it is `None`. */
  datatype Label<T> = NotAvailable | Span(from: T, to: Option<T>)

  /** The label rule of `update_macro_data`: only the start half is checked for `None`. */
  function RangeLabel<T>(range: RangeResult<T>): (l: Label<T>)
    ensures l.NotAvailable? <==> range.start.None?
    ensures l.Span? ==> range.start == Some(l.from) && l.to == range.end
  {
    match range.start
    case None => NotAvailable
    case Some(s) => Span(s, range.end)
  }

  /** A FRED range label reads "N/A" exactly when no row lies within `window`
      days before the start date, whatever happens at the end date. */
  lemma FredLabelNotAvailable(history: seq<Obs>, startDate: int, endDate: int, round: Rounding, window: int)
    requires Ascending(history)
    ensures RangeLabel(FredRange(history, startDate, endDate, round, window)).NotAvailable?
            <==> forall o :: o in history ==> !(startDate - window <= o.day <= startDate)
  {
  }

  // ---------------------------------------------------------------------------
  // GDP from the World Bank
  // ---------------------------------------------------------------------------

  /** A row of the World Bank frame: its index label (a year) and the GDP value. */
  datatype GdpRow = GdpRow(key: string, value: real)

  /** A row whose label parsed as a year. */
  datatype YearObs = YearObs(year: int, value: real)

  /** What `get_gdp_value` returns when it finds a row: GDP in trillions and the year. */
  datatype GdpReading = GdpReading(trillions: real, year: int)

  predicate IsDigit(c: char) {
    '0' <= c <= '9'
  }

  function DigitValue(c: char): int
    requires IsDigit(c)
  {
    c as int - '0' as int
  }

  function DigitChar(d: int): char
    requires 0 <= d <= 9
  {
    ('0' as int + d) as char
  }

  /** Parsing an index label with format "%Y": exactly four decimal digits
      naming a year from 1 on (year 0 does not exist). */
  function ParseYear(key: string): (y: Option<int>)
    ensures y.Some? ==> |key| == 4 && (forall i :: 0 <= i < 4 ==> IsDigit(key[i]))
    ensures y.Some? ==> 1 <= y.value <= 9999
    ensures |key| == 4 && (forall i :: 0 <= i < 4 ==> IsDigit(key[i])) && key != "0000" ==> y.Some?
  {
    if |key| == 4 && IsDigit(key[0]) && IsDigit(key[1]) && IsDigit(key[2]) && IsDigit(key[3]) then
      var v := 1000 * DigitValue(key[0]) + 100 * DigitValue(key[1]) + 10 * DigitValue(key[2]) + DigitValue(key[3]);
      if v >= 1 then Some(v)
      else
        assert key == "0000";
        None
    else None
  }

  /** The year written with four given digits has exactly those digits as its label. */
  lemma LabelOfDigits(a: int, b: int, c: int, d: int)
    requires 0 <= a <= 9 && 0 <= b <= 9 && 0 <= c <= 9 && 0 <= d <= 9
    requires 1000 * a + 100 * b + 10 * c + d >= 1
    ensures YearLabel(1000 * a + 100 * b + 10 * c + d) == [DigitChar(a), DigitChar(b), DigitChar(c), DigitChar(d)]
  {
    var year := 1000 * a + 100 * b + 10 * c + d;
    var tens := 100 * a + 10 * b + c;
    var hundreds := 10 * a + b;
    assert year == 10 * tens + d;
    assert year / 10 == tens && year % 10 == d;
    assert tens == 10 * hundreds + c;
    assert tens / 10 == hundreds && tens % 10 == c;
    assert hundreds / 10 == a && hundreds % 10 == b;
  }

  /** The four-digit label of a year (strftime "%Y"). */
  function YearLabel(year: int): string
    requires 1 <= year <= 9999
  {
    var tens := year / 10;
    var hundreds := tens / 10;
    [DigitChar(hundreds / 10), DigitChar(hundreds % 10), DigitChar(tens % 10), DigitChar(year % 10)]
  }

  /** A label that parses is the label of the year it parses to: the other
      direction of the round trip. */
  lemma LabelOfParsedYear(key: string)
    requires ParseYear(key).Some?
    ensures YearLabel(ParseYear(key).value) == key
  {
    LabelOfDigits(DigitValue(key[0]), DigitValue(key[1]), DigitValue(key[2]), DigitValue(key[3]));
  }

  /** Formatting a year and parsing it back gives the year. */
  lemma ParseYearLabel(year: int)
    requires 1 <= year <= 9999
    ensures ParseYear(YearLabel(year)) == Some(year)
  {
    var tens := year / 10;
    var hundreds := tens / 10;
    var s := YearLabel(year);
    assert year == 10 * tens + year % 10;
    assert tens == 10 * hundreds + tens % 10;
    assert hundreds == 10 * (hundreds / 10) + hundreds % 10;
    assert DigitValue(s[0]) == hundreds / 10;
    assert DigitValue(s[1]) == hundreds % 10;
    assert DigitValue(s[2]) == tens % 10;
    assert DigitValue(s[3]) == year % 10;
  }

  /** `pd.to_datetime(gdp_data.index, format="%Y")`: every label must parse, or
      the conversion fails as a whole. */
  function ParseIndex(rows: seq<GdpRow>): (r: Option<seq<YearObs>>)
    ensures r.Some? <==> forall i :: 0 <= i < |rows| ==> ParseYear(rows[i].key).Some?
    ensures r.Some? ==> |r.value| == |rows|
    ensures r.Some? ==> forall i :: 0 <= i < |rows| ==>
      r.value[i] == YearObs(ParseYear(rows[i].key).value, rows[i].value)
  {
    if rows == [] then Some([])
    else
      match ParseYear(rows[0].key)
      case None => None
      case Some(y) =>
        match ParseIndex(rows[1..])
        case None =>
          assert !forall i :: 0 <= i < |rows| ==> ParseYear(rows[i].key).Some? by {
            var k :| 0 <= k < |rows[1..]| && ParseYear(rows[1..][k].key).None?;
            assert ParseYear(rows[k + 1].key).None?;
          }
          None
        case Some(rest) => Some([YearObs(y, rows[0].value)] + rest)
  }

  /** The day number of 1 January of `year` (Python's `date(year, 1, 1).toordinal()`). */
  function YearStart(year: int): int {
    var y := year - 1;
    365 * y + y / 4 - y / 100 + y / 400 + 1
  }

  /** A year row is on or before the target when 1 January of its year is. */
  predicate Qualifies(o: YearObs, target: int) {
    YearStart(o.year) <= target
  }

  /** The position of the last qualifying row, or -1 when no row qualifies. */
  function LastQualifyingIndex(obs: seq<YearObs>, target: int): (k: int)
    ensures -1 <= k < |obs|
    ensures k == -1 <==> forall i :: 0 <= i < |obs| ==> !Qualifies(obs[i], target)
    ensures k >= 0 ==> Qualifies(obs[k], target)
    ensures forall j :: k < j < |obs| ==> !Qualifies(obs[j], target)
  {
    if obs == [] then -1
    else
      var k := LastQualifyingIndex(obs[1..], target);
      assert forall j :: 1 <= j < |obs| ==> obs[j] == obs[1..][j - 1];
      if k >= 0 then k + 1
      else if Qualifies(obs[0], target) then 0
      else -1
  }

  /** `gdp_data[gdp_data.index <= target_date]`: the qualifying rows, in frame
      order; it ends with the last qualifying row. */
  function YearsOnOrBefore(obs: seq<YearObs>, target: int): (subset: seq<YearObs>)
    ensures subset == [] <==> LastQualifyingIndex(obs, target) == -1
    ensures subset != [] ==> subset[|subset| - 1] == obs[LastQualifyingIndex(obs, target)]
    ensures forall o :: o in subset <==> o in obs && Qualifies(o, target)
  {
    if obs == [] then []
    else
      var rest := YearsOnOrBefore(obs[1..], target);
      if Qualifies(obs[0], target) then [obs[0]] + rest else rest
  }

  /** `get_gdp_value(target_date)` as written: the positionally last qualifying
      row, which is the latest only if the frame is in ascending year order. */
  function GdpValue(rows: seq<GdpRow>, target: int, round: Rounding): (r: Option<GdpReading>)
    ensures r.None? <==> ParseIndex(rows).None? ||
                         forall i :: 0 <= i < |rows| ==> !Qualifies(ParseIndex(rows).value[i], target)
    ensures r.Some? ==> (ParseIndex(rows).Some? &&
      var obs := ParseIndex(rows).value;
      exists i :: 0 <= i < |obs| && Qualifies(obs[i], target)
                  && (forall j :: i < j < |obs| ==> !Qualifies(obs[j], target))
                  && r.value == GdpReading(round(obs[i].value / Trillion), obs[i].year))
  {
    if rows == [] then None
    else
      match ParseIndex(rows)
      case None => None
      case Some(obs) =>
        var subset := YearsOnOrBefore(obs, target);
        if subset == [] then None
        else
          var last := subset[|subset| - 1];
          var k := LastQualifyingIndex(obs, target);
          assert last == obs[k];
          Some(GdpReading(round(last.value / Trillion), last.year))
  }

  /** The qualifying row with the largest year (the last such row on a tie). */
  function LatestQualifying(obs: seq<YearObs>, target: int): (r: Option<YearObs>)
    ensures r.None? <==> forall o :: o in obs ==> !Qualifies(o, target)
    ensures r.Some? ==> r.value in obs && Qualifies(r.value, target)
    ensures r.Some? ==> forall o :: o in obs && Qualifies(o, target) ==> o.year <= r.value.year
  {
    if obs == [] then None
    else
      var rest := LatestQualifying(obs[1..], target);
      assert forall o :: o in obs ==> o == obs[0] || o in obs[1..];
      if !Qualifies(obs[0], target) then rest
      else if rest.Some? && obs[0].year <= rest.value.year then rest
      else Some(obs[0])
  }

  /** `get_gdp_value` as its documentation and the "latest available" caption
      intend: the qualifying row with the largest year, whatever the row order. */
  function LatestGdpValue(rows: seq<GdpRow>, target: int, round: Rounding): (r: Option<GdpReading>)
    ensures r.None? <==> ParseIndex(rows).None? ||
                         forall i :: 0 <= i < |rows| ==> !Qualifies(ParseIndex(rows).value[i], target)
    ensures r.Some? ==> (ParseIndex(rows).Some? &&
      var obs := ParseIndex(rows).value;
      exists o :: o in obs && Qualifies(o, target)
                  && (forall p :: p in obs && Qualifies(p, target) ==> p.year <= o.year)
                  && r.value == GdpReading(round(o.value / Trillion), o.year))
  {
    if rows == [] then None
    else
      match ParseIndex(rows)
      case None => None
      case Some(obs) =>
        match LatestQualifying(obs, target)
        case None => None
        case Some(o) => Some(GdpReading(round(o.value / Trillion), o.year))
  }

  predicate YearsAscending(obs: seq<YearObs>) {
    forall i, j :: 0 <= i < j < |obs| ==> obs[i].year < obs[j].year
  }

  /** In ascending year order the positionally last qualifying row has the largest year. */
  lemma LastQualifyingIsLatest(obs: seq<YearObs>, target: int, i: int)
    requires YearsAscending(obs) && 0 <= i < |obs| && Qualifies(obs[i], target)
    requires forall j :: i < j < |obs| ==> !Qualifies(obs[j], target)
    ensures LatestQualifying(obs, target) == Some(obs[i])
  {
    var r := LatestQualifying(obs, target);
    assert obs[i] in obs;
    var k :| 0 <= k < |obs| && obs[k] == r.value;
    assert obs[i].year <= obs[k].year;
    assert !(k < i) && !(i < k);
  }

  /** On a frame in ascending year order the code as written finds the latest year. */
  lemma GdpValueLatestWhenAscending(rows: seq<GdpRow>, target: int, round: Rounding)
    requires ParseIndex(rows).Some? && YearsAscending(ParseIndex(rows).value)
    ensures GdpValue(rows, target, round) == LatestGdpValue(rows, target, round)
  {
    var obs := ParseIndex(rows).value;
    var subset := YearsOnOrBefore(obs, target);
    if rows != [] && subset != [] {
      LastQualifyingIsLatest(obs, target, LastQualifyingIndex(obs, target));
    }
  }

  /** On a frame in newest-first order, as the World Bank returns it, the code
      as written reports the oldest qualifying year instead of the latest. */
  lemma GdpValueNewestFirst(round: Rounding)
    ensures var rows := [GdpRow("2023", 27000000000000.0), GdpRow("2022", 25000000000000.0)];
            var target := YearStart(2023);
            && GdpValue(rows, target, round) == Some(GdpReading(round(25.0), 2022))
            && LatestGdpValue(rows, target, round) == Some(GdpReading(round(27.0), 2023))
  {
    var rows := [GdpRow("2023", 27000000000000.0), GdpRow("2022", 25000000000000.0)];
    assert ParseYear("2023") == Some(2023);
    assert ParseYear("2022") == Some(2022);
    assert rows[0].key == "2023" && rows[1].key == "2022";
    assert forall i :: 0 <= i < |rows| ==> ParseYear(rows[i].key).Some?;
    var obs := [YearObs(2023, 27000000000000.0), YearObs(2022, 25000000000000.0)];
    var parsed := ParseIndex(rows).value;
    assert |parsed| == 2 && parsed[0] == obs[0] && parsed[1] == obs[1];
    assert parsed == obs;
    assert ParseIndex(rows) == Some(obs);
    assert obs[1..][1..] == [];
    assert YearsOnOrBefore(obs, YearStart(2023)) == obs;
    assert LatestQualifying(obs[1..], YearStart(2023)) == Some(obs[1]);
  }

  // ---------------------------------------------------------------------------
  // Worked cases
  // ---------------------------------------------------------------------------

  /** UNRATE rows on 2023-01-01 (3.4) and 2023-02-01 (3.6) looked up on
      2023-01-15 with the default window find the January row. */
  lemma UnrateExample(round: Rounding)
    ensures YearStart(2023) == 738521
    ensures FredValue([Obs(738521, 3.4), Obs(738552, 3.6)], 738535, round) == Some(Reading(round(3.4), 738521))
  {
    var history := [Obs(738521, 3.4), Obs(738552, 3.6)];
    var r := FredValue(history, 738535, round);
    assert history[0] in history;
    var o :| o in history && o.day == r.value.day && r.value.value == round(o.value);
    assert o == history[0];
  }

  /** An index of 110 against 100 a year earlier is ten per cent inflation. */
  lemma InflationTenPercent(round: Rounding)
    ensures YoyChange(110.0, 100.0, round) == Finite(round(10.0))
  {
  }
}
