/**
 * The index arithmetic of two charts of `render_tab_content`:
 *  - tab2, a dropdown whose first button shows every airline's trace and
 *    whose other buttons each show one airline;
 *  - tab5, bars laid out year-major (one trace per year and airline) with a
 *    slider whose step i shows the traces of the i-th year.
 * Figures are modelled only by what these loops compute: labels,
 * visibility masks, and each trace's year, airline and colour index.
 */
module Figures {
  import opened Aggregates
  import opened Table

  /** Number of colours in `px.colors.qualitative.Plotly`. */
  const PaletteSize: nat := 10

  datatype Label = AllAirlines | Airline(name: string)

  /** A dropdown button: its label and the `visible` list it applies. */
  datatype Button = Button(caption: Label, visible: seq<bool>)

  /**
   * tab2's dropdown over a figure with `traceCount` traces: "All Airlines"
   * shows every trace, and the button of the i-th airline shows trace i
   * alone. `visible[i] = True` raises IndexError unless there are at least
   * as many traces as airlines.
   */
  method DropdownButtons(traceCount: nat, airlines: seq<string>) returns (buttons: seq<Button>)
    requires |airlines| <= traceCount
    ensures |buttons| == |airlines| + 1
    ensures buttons[0].caption == AllAirlines
    ensures |buttons[0].visible| == traceCount
    ensures forall j :: 0 <= j < traceCount ==> buttons[0].visible[j]
    ensures forall i :: 1 <= i < |buttons| ==>
              && buttons[i].caption == Airline(airlines[i - 1])
              && |buttons[i].visible| == traceCount
              && forall j :: 0 <= j < traceCount ==> (buttons[i].visible[j] <==> j == i - 1)
  {
    buttons := [Button(AllAirlines, seq(traceCount, _ => true))];
    for i := 0 to |airlines|
      invariant |buttons| == i + 1
      invariant buttons[0] == Button(AllAirlines, seq(traceCount, _ => true))
      invariant forall k :: 1 <= k < |buttons| ==>
                  && buttons[k].caption == Airline(airlines[k - 1])
                  && |buttons[k].visible| == traceCount
                  && forall j :: 0 <= j < traceCount ==> (buttons[k].visible[j] <==> j == k - 1)
    {
      var visible := new bool[traceCount](_ => false);
      visible[i] := true;
      buttons := buttons + [Button(Airline(airlines[i]), visible[..])];
    }
  }

  /**
   * `t['carrier_full'].unique()` for a table `t` whose rows have a carrier:
   * the carriers in order of first appearance.
   */
  function Carriers<R>(t: seq<R>, carrier: R -> string): (r: seq<string>)
    ensures forall c :: c in r <==> exists i :: 0 <= i < |t| && carrier(t[i]) == c
    ensures forall i, j :: 0 <= i < j < |r| ==> r[i] != r[j]
  {
    var cs := seq(|t|, i requires 0 <= i < |t| => carrier(t[i]));
    assert forall i :: 0 <= i < |t| ==> cs[i] == carrier(t[i]);
    Unique(cs)
  }

  /** The carrier of an `airline_yearly_data` row. */
  function FareRowCarrier(r: CarrierFareRow): string { r.carrier }

  /** The carrier of a `quarterly_market_data` row. */
  function ShareRowCarrier(r: QuarterShareRow): string { r.carrier }

  /** A nonempty (Year, carrier) group has a record with that carrier. */
  lemma CarrierGroupHasRecord(records: seq<FareRecord>, k: (int, string))
    requires Where(records, YearCarrierKey, k) != []
    ensures exists x :: x in records && x.carrier == k.1
  {
    var g := Where(records, YearCarrierKey, k);
    assert g[0] in g;
  }

  /** Every airline of the dropdown comes from some record. */
  lemma DropdownAirlinesFromRecords(records: seq<FareRecord>)
    ensures forall c :: c in Carriers(AirlineYearlyData(records), FareRowCarrier) ==> exists x :: x in records && x.carrier == c
  {
    var t := AirlineYearlyData(records);
    AirlineYearlyDataMeans(records);
    forall c | c in Carriers(t, FareRowCarrier) ensures exists x :: x in records && x.carrier == c {
      var i :| 0 <= i < |t| && FareRowCarrier(t[i]) == c;
      CarrierGroupHasRecord(records, (t[i].year, t[i].carrier));
    }
  }

  /** Every record's carrier is an airline of the dropdown. */
  lemma RecordsInDropdown(records: seq<FareRecord>)
    ensures forall x :: x in records ==> x.carrier in Carriers(AirlineYearlyData(records), FareRowCarrier)
  {
    AirlineYearlyDataCovers(records);
  }

  /** tab2's airlines are exactly the records' carriers. */
  lemma DropdownAirlines(records: seq<FareRecord>)
    ensures forall c :: c in Carriers(AirlineYearlyData(records), FareRowCarrier) <==> exists x :: x in records && x.carrier == c
  {
    DropdownAirlinesFromRecords(records);
    RecordsInDropdown(records);
  }

  /**
   * tab2 end to end: the dropdown over the distinct carriers of
   * `airline_yearly_data`, for a figure of `traceCount` traces.
   */
  method AirlineDropdown(records: seq<FareRecord>, traceCount: nat) returns (airlines: seq<string>, buttons: seq<Button>)
    requires |Carriers(AirlineYearlyData(records), FareRowCarrier)| <= traceCount
    ensures forall c :: c in airlines <==> exists x :: x in records && x.carrier == c
    ensures forall i, j :: 0 <= i < j < |airlines| ==> airlines[i] != airlines[j]
    ensures |buttons| == |airlines| + 1
    ensures buttons[0].caption == AllAirlines
    ensures |buttons[0].visible| == traceCount
    ensures forall j :: 0 <= j < traceCount ==> buttons[0].visible[j]
    ensures forall i :: 1 <= i < |buttons| ==>
              && buttons[i].caption == Airline(airlines[i - 1])
              && |buttons[i].visible| == traceCount
              && forall j :: 0 <= j < traceCount ==> (buttons[i].visible[j] <==> j == i - 1)
  {
    airlines := Carriers(AirlineYearlyData(records), FareRowCarrier);
    DropdownAirlines(records);
    buttons := DropdownButtons(traceCount, airlines);
  }

  /** The colour the i-th airline gets: `colors[i % len(colors)]`, always inside the palette. */
  function ColorIndex(i: nat): (c: nat)
    ensures c < PaletteSize
    ensures i < PaletteSize ==> c == i
  {
    i % PaletteSize
  }

  /** A bar trace of tab5. */
  datatype Trace = Trace(year: int, airline: string, color: nat, visible: bool)

  /** A slider step: its label (the year) and the `visible` list it applies. */
  datatype Step = Step(caption: int, visible: seq<bool>)

  /** The hidden traces of one year, one per airline, in airline order. */
  function YearTraces(year: int, airlines: seq<string>): seq<Trace> {
    seq(|airlines|, a requires 0 <= a < |airlines| => Trace(year, airlines[a], ColorIndex(a), false))
  }

  /** The hidden traces of all years, year after year. */
  function Layout(years: seq<int>, airlines: seq<string>): seq<Trace> {
    if years == [] then []
    else Layout(years[..|years| - 1], airlines) + YearTraces(years[|years| - 1], airlines)
  }


  /** Multiplying by a non-negative number keeps order. */
  lemma MulMonotone(a: int, b: int, n: int)
    requires a <= b && 0 <= n
    ensures a * n <= b * n
  {
    assert b * n - a * n == (b - a) * n;
  }

  /** The layout holds one trace per year and airline. */
  lemma {:induction false} LayoutLength(years: seq<int>, airlines: seq<string>)
    ensures |Layout(years, airlines)| == |years| * |airlines|
  {
    if years != [] {
      var m := |years| - 1;
      LayoutLength(years[..m], airlines);
      assert |Layout(years, airlines)| == m * |airlines| + |airlines|;
      assert m * |airlines| + |airlines| == (m + 1) * |airlines|;
    }
  }

  /** Year-major order: the trace at y*n + a belongs to the y-th year and the a-th airline. */
  lemma {:induction false} LayoutIndex(years: seq<int>, airlines: seq<string>, y: nat, a: nat)
    requires y < |years| && a < |airlines|
    ensures y * |airlines| + a < |Layout(years, airlines)|
    ensures Layout(years, airlines)[y * |airlines| + a] == Trace(years[y], airlines[a], ColorIndex(a), false)
  {
    var n := |airlines|;
    var init := years[..|years| - 1];
    LayoutLength(years, airlines);
    LayoutLength(init, airlines);
    if y < |init| {
      LayoutIndex(init, airlines, y, a);
      MulMonotone(y + 1, |init|, n);
      assert years[y] == init[y];
    } else {
      assert y * n + a == |Layout(init, airlines)| + a;
    }
  }

  /** The integer division of the slider: `j // n == i` exactly on the i-th block of n indices. */
  lemma QuotientWindow(j: int, n: int, i: int)
    requires 0 <= j && 0 < n
    ensures j / n == i <==> i * n <= j < i * n + n
  {
    var q, r := j / n, j % n;
    assert j == q * n + r && 0 <= r < n;
    if q < i {
      MulMonotone(q + 1, i, n);
    } else if q > i {
      MulMonotone(i + 1, q, n);
    }
  }

  /** The nested loops of tab5: for each year, for each airline, one hidden trace. */
  method YearMajorTraces(years: seq<int>, airlines: seq<string>) returns (traces: seq<Trace>)
    ensures traces == Layout(years, airlines)
  {
    traces := [];
    for y := 0 to |years|
      invariant traces == Layout(years[..y], airlines)
    {
      assert years[..y + 1][..y] == years[..y];
      for a := 0 to |airlines|
        invariant traces == Layout(years[..y], airlines) + YearTraces(years[y], airlines[..a])
      {
        assert YearTraces(years[y], airlines[..a + 1])
            == YearTraces(years[y], airlines[..a]) + [Trace(years[y], airlines[a], ColorIndex(a), false)];
        traces := traces + [Trace(years[y], airlines[a], ColorIndex(a), false)];
      }
      assert airlines[..|airlines|] == airlines;
    }
    assert years[..|years|] == years;
  }

  /** The traces once the first `count` of them have been made visible. */
  function Shown(ts: seq<Trace>, count: nat): (r: seq<Trace>)
    ensures |r| == |ts|
    ensures forall k :: 0 <= k < |ts| ==>
              r[k].year == ts[k].year && r[k].airline == ts[k].airline && r[k].color == ts[k].color
    ensures forall k :: 0 <= k < |ts| && k < count ==> r[k].visible
    ensures forall k :: count <= k < |ts| ==> r[k].visible == ts[k].visible
  {
    seq(|ts|, k requires 0 <= k < |ts| => ts[k].(visible := k < count || ts[k].visible))
  }

  /** `fig.data[i].visible = True` for each of the first `count` traces. */
  method ShowFirst(traces: seq<Trace>, count: nat) returns (shown: seq<Trace>)
    requires count <= |traces|
    ensures shown == Shown(traces, count)
  {
    shown := traces;
    for i := 0 to count
      invariant |shown| == |traces|
      invariant forall k :: 0 <= k < |traces| ==>
                  shown[k] == traces[k].(visible := k < i || traces[k].visible)
    {
      shown := shown[i := shown[i].(visible := true)];
    }
  }

  /** tab5's traces: the year-major layout with the first year's traces visible. */
  function SliderTraces(years: seq<int>, airlines: seq<string>): seq<Trace> {
    Shown(Layout(years, airlines), |airlines|)
  }

  /** One trace per year and airline. */
  lemma SliderTracesLength(years: seq<int>, airlines: seq<string>)
    ensures |SliderTraces(years, airlines)| == |years| * |airlines|
  {
    LayoutLength(years, airlines);
  }

  /**
   * Year-major order: the trace at y*n + a has the y-th year, the a-th
   * airline and that airline's colour, and is visible exactly when y is the
   * first year.
   */
  lemma SliderTraceAt(years: seq<int>, airlines: seq<string>, y: nat, a: nat)
    requires y < |years| && a < |airlines|
    ensures y * |airlines| + a < |SliderTraces(years, airlines)|
    ensures SliderTraces(years, airlines)[y * |airlines| + a] == Trace(years[y], airlines[a], ColorIndex(a), y == 0)
  {
    var n := |airlines|;
    var layout := Layout(years, airlines);
    LayoutIndex(years, airlines, y, a);
    FirstBlock(y, a, n);
    var k := y * n + a;
    assert layout[k] == Trace(years[y], airlines[a], ColorIndex(a), false);
    assert SliderTraces(years, airlines)[k] == layout[k].(visible := k < n);
  }

  /** Exactly the first |airlines| traces, those of the first year, are visible. */
  lemma SliderTracesVisible(years: seq<int>, airlines: seq<string>)
    ensures forall k :: 0 <= k < |SliderTraces(years, airlines)| ==>
              (SliderTraces(years, airlines)[k].visible <==> k < |airlines|)
  {
    forall k | 0 <= k < |Layout(years, airlines)| ensures !Layout(years, airlines)[k].visible {
      LayoutVisibleNone(years, airlines, k);
    }
  }

  /**
   * The slider steps over `traceCount` = |years| * n traces: step i is
   * labelled with the i-th year, and its mask, built as `j // n == i`, shows
   * exactly the block of traces i*n .. i*n+n-1.
   */
  method SliderSteps(years: seq<int>, n: nat, traceCount: nat) returns (steps: seq<Step>)
    requires traceCount == |years| * n
    ensures |steps| == |years|
    ensures forall i :: 0 <= i < |steps| ==>
              && steps[i].caption == years[i]
              && |steps[i].visible| == traceCount
              && forall j :: 0 <= j < traceCount ==> (steps[i].visible[j] <==> i * n <= j < i * n + n)
  {
    steps := [];
    for i := 0 to |years|
      invariant |steps| == i
      invariant forall s :: 0 <= s < i ==>
                  && steps[s].caption == years[s]
                  && |steps[s].visible| == traceCount
                  && forall j :: 0 <= j < traceCount ==> (steps[s].visible[j] <==> s * n <= j < s * n + n)
    {
      var visible: seq<bool> := [];
      for j := 0 to traceCount
        invariant |visible| == j
        invariant forall m :: 0 <= m < j ==> (visible[m] <==> i * n <= m < i * n + n)
      {
        assert n > 0;
        QuotientWindow(j, n, i);
        visible := visible + [j / n == i];
      }
      steps := steps + [Step(years[i], visible)];
    }
  }

  /**
   * tab5's traces and slider for the sorted years and the airlines: the
   * traces are `SliderTraces`; step i is labelled with the i-th year and
   * shows exactly the traces i*n .. i*n+n-1, so the first step's mask is the
   * initial visibility. `fig.data[i].visible = True` raises IndexError if
   * there are airlines but no year.
   */
  method SliderFigure(years: seq<int>, airlines: seq<string>) returns (traces: seq<Trace>, steps: seq<Step>)
    requires |years| > 0 || |airlines| == 0
    ensures traces == SliderTraces(years, airlines)
    ensures |steps| == |years|
    ensures forall i :: 0 <= i < |steps| ==>
              && steps[i].caption == years[i]
              && |steps[i].visible| == |traces|
              && forall j :: 0 <= j < |traces| ==>
                   (steps[i].visible[j] <==> i * |airlines| <= j < i * |airlines| + |airlines|)
    ensures |steps| > 0 ==> forall j :: 0 <= j < |traces| ==> (steps[0].visible[j] <==> traces[j].visible)
  {
    var n := |airlines|;
    var layout := YearMajorTraces(years, airlines);
    LayoutLength(years, airlines);
    if n > 0 {
      MulMonotone(1, |years|, n);
    }
    traces := ShowFirst(layout, n);
    steps := SliderSteps(years, n, |traces|);
    SliderTracesVisible(years, airlines);
  }

  /** Within rows of n, index y*n + a falls in the first row exactly when y is 0. */
  lemma FirstBlock(y: nat, a: nat, n: nat)
    requires a < n
    ensures y * n + a < n <==> y == 0
  {
    if y > 0 {
      MulMonotone(1, y, n);
    }
  }

  /** Every trace of the layout starts hidden. */
  lemma {:induction false} LayoutVisibleNone(years: seq<int>, airlines: seq<string>, k: nat)
    requires k < |Layout(years, airlines)|
    ensures !Layout(years, airlines)[k].visible
  {
    var init := years[..|years| - 1];
    if k < |Layout(init, airlines)| {
      LayoutVisibleNone(init, airlines, k);
    }
  }

  /** Strictly increasing. */
  predicate Increasing(s: seq<int>) {
    forall i, j :: 0 <= i < j < |s| ==> s[i] < s[j]
  }

  /** Adds `y` to a strictly increasing sequence unless it is already there. */
  function InsertYear(y: int, s: seq<int>): (r: seq<int>)
    requires Increasing(s)
    ensures Increasing(r)
    ensures forall z :: z in r <==> z in s || z == y
    ensures |r| > 0 && (r[0] == y || (s != [] && r[0] == s[0]))
  {
    if s == [] || y < s[0] then [y] + s
    else if y == s[0] then s
    else [s[0]] + InsertYear(y, s[1..])
  }

  /** `sorted(quarterly_market_data['Year'].unique())`: the distinct years, ascending. */
  function Years(t: seq<QuarterShareRow>): (r: seq<int>)
    ensures Increasing(r)
    ensures forall y :: y in r <==> exists i :: 0 <= i < |t| && t[i].year == y
  {
    if t == [] then [] else InsertYear(t[0].year, Years(t[1..]))
  }

  /**
   * The slider's years and airlines come from the same table, so there are
   * years whenever there are airlines: the first-year loop never indexes
   * past the traces.
   */
  lemma SliderAxesAgree(t: seq<QuarterShareRow>)
    ensures |Carriers(t, ShareRowCarrier)| > 0 ==> |Years(t)| > 0
  {
    if |Carriers(t, ShareRowCarrier)| > 0 {
      assert Carriers(t, ShareRowCarrier)[0] in Carriers(t, ShareRowCarrier);
      assert t[0].year in Years(t);
    }
  }

  /** A nonempty (Year, quarter, carrier) group has a record with that year and carrier. */
  lemma GroupHasRecord(records: seq<FareRecord>, k: (int, int, string))
    requires Where(records, YearQuarterCarrierKey, k) != []
    ensures exists x :: x in records && x.year == k.0 && x.carrier == k.2
  {
    var g := Where(records, YearQuarterCarrierKey, k);
    assert g[0] in g;
  }

  /** Every row of `quarterly_market_data` comes from at least one record with its year and carrier. */
  lemma QuarterlyRowsFromRecords(records: seq<FareRecord>)
    ensures var t := QuarterlyMarketData(records);
      forall i :: 0 <= i < |t| ==> exists x :: x in records && x.year == t[i].year && x.carrier == t[i].carrier
  {
    var t := QuarterlyMarketData(records);
    QuarterlyMarketDataMeans(records);
    forall i | 0 <= i < |t| ensures exists x :: x in records && x.year == t[i].year && x.carrier == t[i].carrier {
      GroupHasRecord(records, (t[i].year, t[i].quarter, t[i].carrier));
    }
  }

  /** Every slider year and every airline comes from some record. */
  lemma AxesFromRecords(records: seq<FareRecord>)
    ensures var t := QuarterlyMarketData(records);
      && (forall y :: y in Years(t) ==> exists x :: x in records && x.year == y)
      && (forall c :: c in Carriers(t, ShareRowCarrier) ==> exists x :: x in records && x.carrier == c)
  {
    QuarterlyRowsFromRecords(records);
  }

  /** Every record's year is a slider year and its carrier an airline. */
  lemma RecordsOnAxes(records: seq<FareRecord>)
    ensures var t := QuarterlyMarketData(records);
      forall x :: x in records ==> x.year in Years(t) && x.carrier in Carriers(t, ShareRowCarrier)
  {
    QuarterlyMarketDataCovers(records);
  }

  /** tab5's axes: the slider years are exactly the records' years, the airlines exactly their carriers. */
  lemma SliderAxes(records: seq<FareRecord>)
    ensures var t := QuarterlyMarketData(records);
      && (forall y :: y in Years(t) <==> exists x :: x in records && x.year == y)
      && (forall c :: c in Carriers(t, ShareRowCarrier) <==> exists x :: x in records && x.carrier == c)
  {
    AxesFromRecords(records);
    RecordsOnAxes(records);
  }

  /**
   * tab5 end to end: from the records to the traces and slider steps over
   * the distinct years in ascending order and the airlines in order of first
   * appearance.
   */
  method QuarterlyShareSlider(records: seq<FareRecord>)
      returns (years: seq<int>, airlines: seq<string>, traces: seq<Trace>, steps: seq<Step>)
    ensures Increasing(years)
    ensures forall y :: y in years <==> exists x :: x in records && x.year == y
    ensures forall c :: c in airlines <==> exists x :: x in records && x.carrier == c
    ensures forall i, j :: 0 <= i < j < |airlines| ==> airlines[i] != airlines[j]
    ensures traces == SliderTraces(years, airlines)
    ensures |steps| == |years|
    ensures forall i :: 0 <= i < |steps| ==>
              && steps[i].caption == years[i]
              && |steps[i].visible| == |traces|
              && forall j :: 0 <= j < |traces| ==>
                   (steps[i].visible[j] <==> i * |airlines| <= j < i * |airlines| + |airlines|)
    ensures |steps| > 0 ==> forall j :: 0 <= j < |traces| ==> (steps[0].visible[j] <==> traces[j].visible)
  {
    var t := QuarterlyMarketData(records);
    years := Years(t);
    airlines := Carriers(t, ShareRowCarrier);
    SliderAxes(records);
    SliderAxesAgree(t);
    traces, steps := SliderFigure(years, airlines);
  }
}
