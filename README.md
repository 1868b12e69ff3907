# Airline market dashboard — a Dafny model of its data logic

The dashboard (`app.py`) loads a table of U.S. airline route fares. It derives
several summary tables and draws them as Dash/Plotly charts. This project
models the part of `app.py` that is the program's own logic and proves what
that logic guarantees:

- **Geocode parsing.** `parse_lat_lon` turns a `"(lat,lon)"` cell into a pair of
  numbers, or into `(None, None)` (module `Geo`). It is built on models of
  `str.strip("()")` and `str.split(",")` (module `Strings`).
- **Grouped aggregates.** `yearly_data`, `airline_yearly_data`, `market_data`
  and `quarterly_market_data` are `groupby(...).agg(...)` tables: a mean or a
  sum per distinct key (modules `Table` and `Aggregates`).
  - Means are exact: a `real` sum divided by the row count.
  - The group-by is specified once, in `Table.GroupBy`:
    - one group per distinct key;
    - each group holds exactly the rows with that key, each as often as it occurs in the table;
    - no group is empty;
    - every row has its group.
- **Route map pipeline.** `route_data` and `top_5_routes` (module `Routes`):
  - passengers summed per route;
  - both endpoints parsed;
  - routes with a missing coordinate dropped (`dropna`);
  - a sort by passengers, descending, then `head(5)`.
- **Chart masks.** The index arithmetic of `render_tab_content` (module `Figures`):
  - the tab2 dropdown buttons and their visibility masks;
  - the tab5 bar traces, laid out year-major, with each airline's colour index;
  - the first year shown by default;
  - the slider steps, whose masks are `j // n == i`.

  This code changes state step by step, so it is modelled by methods with loops. Each method is proved against a specification function or states its result outright.

Python's `float()` enters every parsing function as a parameter `num: string -> Option<real>`. It returns `None` exactly where `float()` raises `ValueError`. Nothing here depends on what `num` accepts, so every property holds for any number parser.

A table is a `seq<FareRecord>`. A geocode cell is `Text(s)` or `Missing`; `Missing` is the NaN that pandas reads for an empty cell.

## Model

| member | source | states |
|---|---|---|
| Strings.StripLeft | app.py:15 | the result is a suffix of the input; everything removed is `(` or `)`; the result does not start with one |
| Strings.StripRight | app.py:15 | the result is a prefix of the input; everything removed is `(` or `)`; the result does not end with one |
| Strings.Split | app.py:15 | `split(",")` gives one more piece than there are commas, and no piece contains a comma |
| Strings.JoinSplit | app.py:15 | joining the pieces of a split with the separator gives back the text |
| Strings.SplitJoin | app.py:15 | splitting the join of comma-free pieces gives back exactly those pieces |
| Strings.SplitWithoutSep | app.py:15 | a text without the separator splits into itself alone |
| Geo.ParseLatLon | app.py:13-18 | latitude and longitude are present together or absent together; success needs text whose stripped form holds exactly one comma; a non-text cell gives (None, None) |
| Geo.ParseLatLonSuccess | app.py:14-16 | a successful parse means: the stripped text is two comma-free pieces around one comma; both pieces convert; the result is their values in order |
| Geo.ParseLatLonOfParts | app.py:14-18 | stripped text made of two comma-free pieces around one comma parses to both values, or to (None, None) when either does not convert |
| Geo.ParseFormatted | app.py:13-16 | round trip: `"(" + a + "," + b + ")"` parses back to the values of `a` and `b` (or to (None, None) when either is not a number) |
| Geo.NoCommaNeverParses | app.py:15-18 | text without a comma never parses, whatever the number parser accepts |
| Geo.BadParsesToNothing | app.py:15-18 | the text "bad" gives (None, None) |
| Table.Where | app.py:21-24 | a group holds a row exactly when the row is in the table and has the group's key, and holds it as many times as the table does, so duplicate rows count in every sum and mean |
| Table.GroupBy | app.py:21-24 | `groupby`: distinct keys; each group is exactly the rows with its key and is not empty; every row's key has a group |
| Table.GroupingConservesPassengers | app.py:24 | the passenger totals of the groups add up to the passengers of the whole table, for any key |
| Table.RealSumWithin | app.py:21 | a real column whose values lie in [lo, hi] sums to between n·lo and n·hi |
| Table.MeanWithin | app.py:21 | the mean of a group lies between any lower and upper bound of its values |
| Aggregates.YearlyDataSpec | app.py:21 | `yearly_data` has one row per distinct Year. Each year of the source has its row. The row's fare is the mean fare of that year's rows, its passengers their sum, its large_ms their mean share |
| Aggregates.YearlyDataCovers | app.py:21 | every source row's Year has a row in `yearly_data` |
| Aggregates.YearlyDataValues | app.py:21 | each `yearly_data` row holds the mean fare, the summed passengers and the mean share of that year's (non-empty) group of rows |
| Aggregates.YearlyConservesPassengers | app.py:21 | the yearly passenger totals add up to the passengers of the whole table |
| Aggregates.YearlyFaresWithin | app.py:21 | each yearly mean fare lies within any lower and upper bound of the source fares |
| Aggregates.YearlySharesArePercentages | app.py:21 | each yearly mean share is a percentage when every source share is one |
| Aggregates.YearlyFareExample | app.py:21 | two fares of 200 and 300 in one year give one row with mean fare 250 and the two passenger counts summed |
| Aggregates.AirlineYearlyDataSpec | app.py:22 | `airline_yearly_data` has one row per distinct (Year, carrier_full); every such pair of the source has its row; each row's fare is the mean fare of that pair's rows |
| Aggregates.MarketDataSpec | app.py:23 | `market_data` has one row per distinct (Year, carrier_full); every such pair of the source has its row; each row's large_ms is the mean share of that pair's rows |
| Aggregates.QuarterlyMarketDataSpec | app.py:115 | `quarterly_market_data` has one row per distinct (Year, quarter, carrier_full); every such triple of the source has its row; each row's large_ms is the mean share of that triple's rows |
| Aggregates.ShareMeansArePercentages | app.py:23 | mean shares per (Year, carrier) and per (Year, quarter, carrier) are percentages when every share is one |
| Routes.RouteTotalsSpec | app.py:24 | `route_data` has one row per distinct (city1, city2, Geocoded_City1, Geocoded_City2); every route of the source has its row; each row's passengers is the sum over the source rows with that key |
| Routes.RouteTotalsConservePassengers | app.py:24 | the route passenger totals add up to the passengers of the whole table |
| Routes.LocatedRoute | app.py:26-27 | each route with coordinates added carries the parsed geocodes of its own key and the passenger sum of its key's source rows |
| Routes.DropIncomplete | app.py:28 | `dropna`: every route kept has all four coordinates; each complete route is kept as often as it occurs; every incomplete route is removed |
| Routes.ValidRoutesSound | app.py:24-28 | every route left after the `dropna` has all four coordinates; they are its two parsed geocodes; its passengers are the sum over its source rows |
| Routes.ValidRoutesKeepParsable | app.py:24-28 | a source row's route survives the `dropna` if and only if both of its geocodes parse |
| Routes.Insert | app.py:29 | inserting into a non-increasing sequence keeps it non-increasing and adds exactly the one route |
| Routes.SortByPassengers | app.py:29 | `sort_values(by='passengers', ascending=False)`: non-increasing passengers, and a permutation of the input |
| Routes.TopRoutes | app.py:29 | `head(5)` after the sort: min(5, n) routes, taken from the input (sub-multiset), non-increasing; every route left out has at most the passengers of every route kept |
| Routes.TopFiveRoutesSpec | app.py:24-29 | `top_5_routes` holds min(5, number of valid routes) routes in non-increasing order. Each is a valid route with all four coordinates, which are its parsed geocodes, and carries its route's passenger sum |
| Routes.MalformedGeocodeNotDrawn | app.py:26-29 | no route whose origin or destination geocode reads "bad" reaches the map |
| Figures.DropdownButtons | app.py:74-78 | for any airline list, there are 1 + (number of airlines) buttons. The first, "All Airlines", has an all-true mask of the trace count's length. Button i+1 carries airline i's name, and its mask has the same length with exactly one true, at index i |
| Figures.DropdownAirlines | app.py:75 | tab2's airlines are exactly the carriers of the source rows, in both directions |
| Figures.AirlineDropdown | app.py:66-78 | tab2 end to end from the source rows. The airlines are distinct and are exactly the source's carriers. There are 1 + (number of distinct airlines) buttons: "All Airlines" shows every trace, and button i+1 carries airline i's name and shows trace i alone |
| Figures.ColorIndex | app.py:122 | the colour index `i % len(colors)` is always inside the palette, and the first ten airlines get distinct colours 0..9 |
| Figures.LayoutLength | app.py:125-138 | the nested loops make one trace per (year, airline) |
| Figures.LayoutIndex | app.py:125-138 | year-major order: the trace at y·n + a has the y-th year, the a-th airline and that airline's colour |
| Figures.YearMajorTraces | app.py:125-138 | the nested `for year … for airline` loops build exactly the year-major layout |
| Figures.Shown | app.py:140-142 | every trace keeps its year, airline and colour; the first `count` traces are visible; every later trace keeps its visibility |
| Figures.ShowFirst | app.py:140-142 | the loop that sets `visible` on each of the first `count` traces computes exactly `Shown` |
| Figures.SliderTracesLength | app.py:125-142 | tab5 has |years| · n traces |
| Figures.SliderTraceAt | app.py:122-142 | trace y·n + a belongs to the y-th year and the a-th airline, has that airline's colour index, and is visible exactly when y = 0 |
| Figures.SliderTracesVisible | app.py:140-142 | initially exactly the first n traces (the first year's) are visible |
| Figures.QuotientWindow | app.py:151 | `j // n == i` holds exactly when i·n ≤ j < i·n + n |
| Figures.SliderSteps | app.py:144-155 | there is one step per year; step i is labelled with the i-th year; its mask has one entry per trace and shows exactly the traces i·n … i·n+n−1 |
| Figures.SliderFigure | app.py:122-155 | the traces are the year-major layout with the first year shown. The steps are labelled with the years, and step i shows exactly block i. Step 0's mask is the initial visibility |
| Figures.Carriers | app.py:118 | `unique()` of carrier_full over a table (`airline_yearly_data` at app.py:75, `quarterly_market_data` at app.py:118): distinct carriers, exactly those of the table |
| Figures.InsertYear | app.py:125 | inserting a year into a strictly increasing sequence keeps it strictly increasing and adds just that year |
| Figures.Years | app.py:125 | `sorted(...unique())`: strictly increasing, holding exactly the years of the table |
| Figures.SliderAxesAgree | app.py:118-142 | when there are airlines there are years, so the first-year loop never indexes past the traces |
| Figures.SliderAxes | app.py:115-125 | the slider years are exactly the years of the source rows, and the airlines exactly their carriers |
| Figures.QuarterlyShareSlider | app.py:111-155 | tab5 end to end from the source rows. The years are ascending and are exactly the source's years. The airlines are distinct and are exactly its carriers. The traces are the slider layout. Step i is labelled with year i and shows exactly the traces i·n … i·n+n−1. Step 0's mask is the initial visibility |

## Left out

- Loading the CSV over HTTP (app.py:10) is I/O. The model takes the records as its input.
- The Dash application, layout, tabs, callback registration and `run_server` are framework plumbing.
- Plotly figure construction and styling is not modelled: the charts of tab1, tab3 and tab4, the route map and the `update_layout` options. A tab5 trace is modelled by its year, airline, colour index and visibility only. The quarter and share values it plots are not modelled.
- Python's `float()` is a parameter. Whitespace handling, `"nan"`, `"inf"` and IEEE rounding are not modelled. Sums and means are exact reals.
- NaN values in the fare, passengers and large_ms columns are not modelled (pandas skips them in `mean` and `sum`). Every record carries numbers.
- Table.GroupBy lists groups in order of first appearance, whereas pandas sorts the group keys. Each table has the same rows either way, but in a different order, and so does `unique()` of one of its columns.
- Figures.Carriers lists tab5's airlines in order of first appearance in the records. The program lists them in order of first appearance in `quarterly_market_data`, which pandas sorts by (Year, quarter, carrier). Records for carrier "B" then "A" in one quarter give the model ["B", "A"] and the program ["A", "B"]. So tab5's trace positions and colour indices (app.py:122, 128-134) follow the records' order, not the program's. No contract here says which airline gets which position or colour.
- Routes.RouteTotals keeps routes whose geocode is missing (a `Missing` cell) as groups of their own. Pandas drops NaN group keys at app.py:24. Such routes never parse, so the `dropna` at app.py:28 removes them, and `ValidRoutes` and `top_5_routes` are the same either way.
- Routes.RouteTotalsSpec and Routes.RouteTotalsConservePassengers describe the model's `route_data`. They hold for the program's `route_data` only when no geocode cell is NaN, because pandas drops those groups and their passengers.
- City names are plain strings in `FareRecord`. Rows with a missing `city1` or `city2`, which pandas would also drop at app.py:24, are outside the model.
- `Year`, `quarter` and `carrier_full` are plain integers and strings in `FareRecord`, so records with one of them missing are outside the model. Pandas drops such a record only from the groupbys keyed on the missing column (app.py:21-23, 115): a record with no carrier still counts in `yearly_data` but is absent from `airline_yearly_data`, `market_data` and tab5's axes. For such data Figures.SliderAxes and Figures.DropdownAirlines ("exactly the records' years and carriers") would not hold for the program.
- Routes.SortByPassengers fixes no order among equal passenger totals, since pandas' default sort is not stable. Routes.TopRoutes therefore says which routes may be kept but not which of several tied routes is.
- Routes.WithCoordinates builds the four coordinate columns as a new sequence. The in-place column assignment at app.py:26-27 is not modelled as an update.
- Figures.Carriers lists tab2's airlines in order of first appearance in the records, whereas the program's `airline_yearly_data` is sorted by (Year, carrier). The buttons therefore follow the records' order; no contract says which airline gets which button position.
- Figures.DropdownButtons takes the figure's trace count as a parameter. It requires at least as many traces as airlines; with fewer, `visible[i] = True` raises IndexError. How `px.line` turns the table into traces is Plotly's code and is not modelled.
- Figures.SliderFigure requires a year whenever there is an airline; otherwise `fig.data[i]` raises IndexError. Figures.SliderAxesAgree proves that this holds for axes taken from `quarterly_market_data`.
- Figures.SliderSteps labels a step with the year as an integer; the `str(year)` conversion and the step's title are not modelled.
- Figures.ColorIndex gives the palette index. `PaletteSize` is 10, the length of Plotly's qualitative palette, whose colour values are not modelled.
