# McCookbook: the as-of indicator lookups and the demo classes, in Dafny

This project models the parts of the McCookbook Python scripts that have
behaviour worth stating. It has two groups.

**The point-in-time ("as-of") lookups of the finance dashboard**
(`finance_dashboard_advanced.py`, module `FinanceDashboard`).

- `get_fred_value` downloads the rows of a FRED series dated within
  `window` days (30 by default) either side of a target date. It returns the
  latest row dated on or before the target, as its rounded value and its date,
  or `(None, None)`.
- `get_fred_range` does that lookup at two dates.
- `get_inflation_value` downloads CPI from 400 days before the target to
  30 days after it. It reads the latest index on or before the target and the
  latest on or before 365 days earlier, and returns their year-over-year
  change in per cent.
- `get_inflation_range` does that at two dates.
- `get_gdp_value` parses the World Bank frame's year labels and takes the last
  row dated on or before the target, in trillions.
- `update_macro_data` shows "N/A" for a range exactly when its start half is
  missing.

The download is modelled as a parameter: the series' full history, a sequence
of dated rows. `Fetch` cuts from it the window the script asks for. The
windowed lookups can then be compared with the same lookup over the whole
history (`LastOnOrBefore(history, target)`). That comparison proves the
source's window limitation: a lookup finds nothing when the latest earlier row
is older than the window, even though that row exists. Dates are day numbers
in Python's `date.toordinal()` numbering, and `round(x, 2)` is an abstract
function passed in as `round`.

**The demo classes and generators** (`pythonAdvExamples.py` and
`syntaxExamples.py`, modules `AdvancedConcepts` and `SyntaxDemo`).

- `Rectangle` and `Circle` are classes whose property setters raise
  `ValueError` on a negative value. The model returns that exception as an
  `Outcome` value and leaves the state unchanged.
- The generators `countdown`, `squares_up_to` and `nested_generator` are
  modelled by the sequences they yield. `countdown` is also modelled as its
  `while` loop, proved against that sequence.
- The decorators `emphasize` and `uppercase_decorator` are higher-order
  functions.
- `Builtins` holds `None` (as `Option`), the `ValueError` outcome and
  `str.upper()` on ASCII text.

The model follows the code in these details:

- The code has one `window` for both sides of the target, not a separate
  window before and after.
- `get_inflation_value` resolves both of its dates from one download
  (`[t - 400, t + 30]`). It does not run two lookups, each with its own window.
- A failed download is not returned as a distinct result. It is a Python
  exception that propagates to `update_macro_data`.
- A zero CPI base is not guarded. numpy float division then gives an infinity
  or NaN rather than an error.

## Model

| member | source | states |
|---|---|---|
| `Builtins.Upper` | pythonAdvExamples.py:136 | `str.upper()` on ASCII keeps the length and upper-cases each character independently |
| `Builtins.UpperIdempotent` | syntaxExamples.py:121 | upper-casing an already upper-cased string changes nothing |
| `FinanceDashboard.Fetch` | finance_dashboard_advanced.py:55-57 | the download holds exactly the history's rows dated in `[start, end]`, still in ascending date order |
| `FinanceDashboard.OnOrBefore` | finance_dashboard_advanced.py:60 | `data.loc[:target]` holds exactly the rows dated on or before the target, in order |
| `FinanceDashboard.LastOnOrBefore` | finance_dashboard_advanced.py:60-63 | `None` iff every row is after the target; otherwise a row dated on or before the target that no such row is later than |
| `FinanceDashboard.FredValue` | finance_dashboard_advanced.py:50-65 | `None` iff no history row is dated in `[target - window, target]`; a result's date lies in that interval, its value is a row's rounded value, and no history row lies strictly between it and the target |
| `FinanceDashboard.FetchedLastOnOrBefore` | finance_dashboard_advanced.py:55-63 | taking the latest row in the fetched window gives the whole history's latest row on or before the target when that row is in the window, and nothing otherwise |
| `FinanceDashboard.FredValueWindowed` | finance_dashboard_advanced.py:55-65 | window limitation, both directions: the lookup equals the unwindowed latest row when that row is at most `window` days old, and is `None` when it is older, even though it exists |
| `FinanceDashboard.FredValueWiderWindow` | finance_dashboard_advanced.py:50-57 | widening the window never changes a lookup that already succeeded |
| `FinanceDashboard.FredRange` | finance_dashboard_advanced.py:67-76 | each half is the point lookup at its own date with the shared window |
| `FinanceDashboard.FredRangeHalvesIndependent` | finance_dashboard_advanced.py:74-76 | neither half depends on the other's date; the start half at `a` is the end half of any range ending at `a` |
| `FinanceDashboard.GrowthPercent` | finance_dashboard_advanced.py:98 | the unrounded year-over-year change in per cent, `(current - previous) / previous * 100`, for a non-zero base |
| `FinanceDashboard.GrowthPercentInverse` | finance_dashboard_advanced.py:98 | compounding the base by the unrounded percentage gives back the current value |
| `FinanceDashboard.YoyChange` | finance_dashboard_advanced.py:98-99 | the change is finite exactly when the base is non-zero, and is then the rounded percentage that maps the base to the current value |
| `FinanceDashboard.InflationValue` | finance_dashboard_advanced.py:78-99 | `None` iff no CPI row lies in `[t - 400, t - 365]`; otherwise the change from the whole history's latest row on or before `t - 365` to its latest on or before `t`, dated at the latter |
| `FinanceDashboard.InflationRange` | finance_dashboard_advanced.py:101-108 | each half is the inflation lookup at its own date |
| `FinanceDashboard.InflationRangeHalvesIndependent` | finance_dashboard_advanced.py:106-108 | neither half of an inflation range depends on the other's date |
| `FinanceDashboard.RangeLabel` | finance_dashboard_advanced.py:261-296 | a range label is "N/A" iff the start half is `None`; otherwise it shows the start reading and passes the end half through unchecked, `None` included |
| `FinanceDashboard.FredLabelNotAvailable` | finance_dashboard_advanced.py:239-264 | a FRED range label reads "N/A" iff no row lies within `window` days on or before the start date, whatever the end date |
| `FinanceDashboard.ParseYear` | finance_dashboard_advanced.py:120 | a label parses with format "%Y" iff it is four decimal digits other than "0000"; the year is then 1 to 9999 |
| `FinanceDashboard.ParseYearLabel` | finance_dashboard_advanced.py:120 | formatting a year as four digits and parsing it back gives the year |
| `FinanceDashboard.LabelOfParsedYear` | finance_dashboard_advanced.py:120 | a label that parses is the four-digit label of its year, so parsing and formatting are inverse both ways |
| `FinanceDashboard.ParseIndex` | finance_dashboard_advanced.py:119-122 | the index converts iff every label parses, and then each row keeps its value with its parsed year |
| `FinanceDashboard.YearStart` | finance_dashboard_advanced.py:120-123 | the day number of 1 January of a year, the timestamp a "%Y" label parses to and the value the mask compares with the target |
| `FinanceDashboard.LastQualifyingIndex` | finance_dashboard_advanced.py:123-126 | the position of the last row whose year starts on or before the target: -1 iff there is none; no later row qualifies |
| `FinanceDashboard.YearsOnOrBefore` | finance_dashboard_advanced.py:123 | the mask holds exactly the rows whose year starts on or before the target; it is empty iff none does, and otherwise ends with the last such row |
| `FinanceDashboard.GdpValue` | finance_dashboard_advanced.py:110-128 | `None` iff the labels fail to parse or no year starts on or before the target; otherwise the positionally last qualifying row, in trillions, with its year |
| `FinanceDashboard.LatestQualifying` | finance_dashboard_advanced.py:113 | `None` iff no row qualifies; otherwise a qualifying row whose year no qualifying row exceeds |
| `FinanceDashboard.LatestGdpValue` | finance_dashboard_advanced.py:110-114 | as `GdpValue`, but the reported row has the largest qualifying year whatever the row order |
| `FinanceDashboard.LastQualifyingIsLatest` | finance_dashboard_advanced.py:123-127 | in ascending year order the positionally last qualifying row is the one with the largest year |
| `FinanceDashboard.GdpValueLatestWhenAscending` | finance_dashboard_advanced.py:123-128 | on a frame in ascending year order the code as written returns the latest year |
| `FinanceDashboard.GdpValueNewestFirst` | finance_dashboard_advanced.py:126-127 | on a newest-first frame (2023, 2022) with a target in 2023, the code as written reports 2022 where the latest is 2023 |
| `FinanceDashboard.UnrateExample` | finance_dashboard_advanced.py:50-65 | UNRATE rows on 2023-01-01 (3.4) and 2023-02-01 (3.6), looked up on 2023-01-15 with the default window, give 3.4 as of 2023-01-01 |
| `FinanceDashboard.InflationTenPercent` | finance_dashboard_advanced.py:98 | an index of 110 against a base of 100 is a change of 10 per cent |
| `AdvancedConcepts.Rectangle.constructor` | pythonAdvExamples.py:90-93 | the sides are stored as given, negative ones included |
| `AdvancedConcepts.Rectangle.Area` | pythonAdvExamples.py:120-123 | the area is never negative while both sides are non-negative, and is zero when a side is zero |
| `AdvancedConcepts.Rectangle.SetWidth` | pythonAdvExamples.py:103-108 | a negative width raises `ValueError` and leaves the width as it was; otherwise the width becomes the value; the height never changes; non-negative sides stay non-negative |
| `AdvancedConcepts.Rectangle.SetHeight` | pythonAdvExamples.py:114-118 | a negative height raises `ValueError` and leaves the height as it was; otherwise the height becomes the value; the width never changes |
| `AdvancedConcepts.PropertyDemo` | pythonAdvExamples.py:243-249 | `Rectangle(3, 4)` has area 12, and area 20 with width 5 after `rect.width = 5` |
| `AdvancedConcepts.Emphasize` | pythonAdvExamples.py:127-137 | the decorator: the wrapped function's result, upper-cased, between "!!! " and " !!!" |
| `AdvancedConcepts.Hello` | pythonAdvExamples.py:141-143 | the undecorated body of `greeting` (and of `greet`): "Hello, " followed by the name |
| `AdvancedConcepts.Greeting` | pythonAdvExamples.py:127-143 | the emphasized greeting is "!!! HELLO, " followed by the upper-cased name and " !!!" |
| `AdvancedConcepts.GreetingAlice` | pythonAdvExamples.py:253 | `greeting("Alice")` is "!!! HELLO, ALICE !!!" |
| `AdvancedConcepts.CountdownFrom` | pythonAdvExamples.py:147-154 | the values `countdown(n)` yields: n, then the countdown from n - 1, and nothing once n is not positive |
| `AdvancedConcepts.CountdownFromValues` | pythonAdvExamples.py:147-154 | `countdown(n)` yields n values, the i-th being n - i, all positive and strictly decreasing, and none when n is not positive |
| `AdvancedConcepts.Countdown` | pythonAdvExamples.py:147-154 | the loop yields exactly the countdown sequence |
| `AdvancedConcepts.SquaresUpTo` | pythonAdvExamples.py:158-163 | the values the generator expression yields: `i * i` for `i` from 0 to n |
| `AdvancedConcepts.SquaresUpToIncreasing` | pythonAdvExamples.py:158-163 | `squares_up_to(n)` yields n + 1 values (none for n < 0), strictly increasing |
| `AdvancedConcepts.SquaresUpToStep` | pythonAdvExamples.py:163 | extending the range by one appends the next square to what was yielded |
| `SyntaxDemo.VarargsIgnoresExtras` | syntaxExamples.py:77-89 | the result does not depend on the extra positional or keyword arguments; the demo call `(3, 5, 7.0, 9.5, key=..., flag=...)` returns 8 |
| `SyntaxDemo.VarargsDemo` | syntaxExamples.py:77-89 | `varargs_demo` returns `a + b`; the extra positional and keyword arguments are only printed |
| `SyntaxDemo.UppercaseDecorator` | syntaxExamples.py:117-122 | the decorator: the wrapped function's result, upper-cased |
| `SyntaxDemo.Greet` | syntaxExamples.py:117-126 | the decorated greeting is "HELLO, " followed by the upper-cased name |
| `SyntaxDemo.GreetIsUpperCase` | syntaxExamples.py:117-122 | the decorated result is already upper case |
| `SyntaxDemo.EmphasizeIsUppercaseWithBangs` | syntaxExamples.py:117-126 | the emphasized `greeting` equals the upper-cased `greet` between "!!! " and " !!!" |
| `SyntaxDemo.NestedGenerator` | syntaxExamples.py:138-140 | `nested_generator()` yields exactly 3, 2, 1 |
| `SyntaxDemo.Circle.constructor` | syntaxExamples.py:147-148 | the radius is stored as given, negative included |
| `SyntaxDemo.Circle.SetRadius` | syntaxExamples.py:155-159 | a negative radius raises `ValueError` and leaves the radius as it was; otherwise the radius becomes exactly the value |
| `SyntaxDemo.Circle.UnitCircle` | syntaxExamples.py:166-169 | `unit_circle()` is a new circle of radius 1.0 |
| `SyntaxDemo.CircleDemo` | syntaxExamples.py:250-256 | the demo sees radius 2.5, then 3.5 after the setter, and 1.0 for the unit circle |

## Left out

- Downloads: `pdr.get_data_fred` and `wbdata.get_dataframe` are network calls. A series is its full history as a parameter. The series identifier only chooses that history, so it does not appear.
- Download failures: a failed download raises a Python exception that propagates out of these functions. The model has no failure result.
- Missing values: FRED's "." and the World Bank's empty years arrive as NaN rows. The model's values are reals, so it has no NaN rows.
- Floating point: `round(x, 2)` is an abstract `round` parameter. Values are exact reals. The only floating-point effect kept is the infinity or NaN from a zero CPI base.
- Dates: `strptime`/`strftime` and the time of day of `datetime.today()` are not modelled. Days are whole ordinal day numbers.
- `FinanceDashboard.OnOrBefore`: `data.loc[:target]` is a label slice. It equals the "on or before" filter only on a date-sorted index, so the FRED lookups require ascending history.
- `FinanceDashboard.ParseYear`: pandas' timestamp range (roughly 1677 to 2262) is not modelled. The model accepts any four-digit year from 0001.
- GUI code is not modelled: Tk widgets, `update_stock_data`, the rest of `update_macro_data`, plotting, the splash screen and auto-refresh. `RangeLabel` gives a label's structure, not its f-string text.
- Stock functions: moving averages, percentage price change and the ticker-info tab are floating-point display over Yahoo Finance data.
- Printing: every `print` in the demos is output only. This covers `varargs_demo` and the demo drivers.
- Python's dynamic typing: the setters compare any value with `< 0`. The model uses reals. A NaN, which Python's check lets through, does not exist here.
- `SyntaxDemo.VarargsDemo` assumes integer `a` and `b`. The type hints are not enforced in Python, so `+` could also concatenate strings.
- `Builtins.Upper`: handles ASCII only. Python's Unicode case mapping (for example `ß` to `SS`, which changes length) is not modelled.
- `Circle.area` uses `math.pi` and floating point. `circle_description` returns a constant sentence.
- `FileEcho` and `FileDummy` are file I/O context managers.
- `countdown` in syntaxExamples.py:132-136 is the same code as in pythonAdvExamples.py, so `AdvancedConcepts.Countdown` models both. `greet`'s undecorated body is the same as `greeting`'s, so both use `AdvancedConcepts.Hello`.
- Repeated calls: the functions are pure, so two identical lookups against the same history give the same result by construction.

## Findings

| source | as written | input that shows it | evidently intended | confidence | as-written member | corrected member |
|---|---|---|---|---|---|---|
| finance_dashboard_advanced.py:123-128 | `subset.iloc[-1]` takes the positionally last row dated on or before the target | World Bank frames arrive newest first: rows 2023 then 2022, target in 2023, report 2022 (`FinanceDashboard.GdpValueNewestFirst`) | the latest year on or before the target, as the docstring and the "latest available" caption say | medium: depends on the row order the World Bank library returns; not executed | `FinanceDashboard.GdpValue` | `FinanceDashboard.LatestGdpValue` |
