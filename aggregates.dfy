/**
 * The derived tables behind the fare and market-share charts: the yearly
 * summary, mean fare per year and carrier, mean dominant-carrier share per
 * year and carrier, and mean share per year, quarter and carrier.
 */
module Aggregates {
  import opened Table

  /** A row of `yearly_data`. */
  datatype YearlyRow = YearlyRow(year: int, fare: real, passengers: int, largeMs: real)

  /** A row of `airline_yearly_data`. */
  datatype CarrierFareRow = CarrierFareRow(year: int, carrier: string, fare: real)

  /** A row of `market_data`. */
  datatype CarrierShareRow = CarrierShareRow(year: int, carrier: string, largeMs: real)

  /** A row of `quarterly_market_data`. */
  datatype QuarterShareRow = QuarterShareRow(year: int, quarter: int, carrier: string, largeMs: real)

  /** `yearly_data`: the year groups, each summarised by mean fare, total passengers and mean share. */
  function YearlyData(records: seq<FareRecord>): seq<YearlyRow> {
    var gs := GroupBy(records, YearKey);
    seq(|gs|, i requires 0 <= i < |gs| =>
      YearlyRow(gs[i].key, Mean(gs[i].rows, FareOf), Sum(gs[i].rows, PassengersOf), Mean(gs[i].rows, LargeMsOf)))
  }

  /** `airline_yearly_data`: the (Year, carrier) groups, each summarised by mean fare. */
  function AirlineYearlyData(records: seq<FareRecord>): seq<CarrierFareRow> {
    var gs := GroupBy(records, YearCarrierKey);
    seq(|gs|, i requires 0 <= i < |gs| =>
      CarrierFareRow(gs[i].key.0, gs[i].key.1, Mean(gs[i].rows, FareOf)))
  }

  /** `market_data`: the (Year, carrier) groups, each summarised by mean share. */
  function MarketData(records: seq<FareRecord>): seq<CarrierShareRow> {
    var gs := GroupBy(records, YearCarrierKey);
    seq(|gs|, i requires 0 <= i < |gs| =>
      CarrierShareRow(gs[i].key.0, gs[i].key.1, Mean(gs[i].rows, LargeMsOf)))
  }

  /** `quarterly_market_data`: the (Year, quarter, carrier) groups, each summarised by mean share. */
  function QuarterlyMarketData(records: seq<FareRecord>): seq<QuarterShareRow> {
    var gs := GroupBy(records, YearQuarterCarrierKey);
    seq(|gs|, i requires 0 <= i < |gs| =>
      QuarterShareRow(gs[i].key.0, gs[i].key.1, gs[i].key.2, Mean(gs[i].rows, LargeMsOf)))
  }

  /**
   * `yearly_data` has exactly one row per distinct Year of the source, and
   * that row holds the mean fare, the total passengers and the mean
   * dominant-carrier share of that year's rows.
   */
  lemma YearlyDataSpec(records: seq<FareRecord>)
    ensures var t := YearlyData(records);
      && (forall i, j :: 0 <= i < j < |t| ==> t[i].year != t[j].year)
      && (forall x :: x in records ==> exists i :: 0 <= i < |t| && t[i].year == x.year)
      && (forall i :: 0 <= i < |t| ==>
            var g := Where(records, YearKey, t[i].year);
            && g != []
            && t[i].fare == Mean(g, FareOf)
            && t[i].passengers == Sum(g, PassengersOf)
            && t[i].largeMs == Mean(g, LargeMsOf))
  {
    YearlyDataKeys(records);
    YearlyDataCovers(records);
    YearlyDataValues(records);
  }

  lemma YearlyDataKeys(records: seq<FareRecord>)
    ensures var t := YearlyData(records);
      forall i :: 0 <= i < |t| ==> t[i].year == GroupBy(records, YearKey)[i].key
  {
  }

  lemma YearlyDataCovers(records: seq<FareRecord>)
    ensures var t := YearlyData(records);
      forall x :: x in records ==> exists i :: 0 <= i < |t| && t[i].year == x.year
  {
    var gs := GroupBy(records, YearKey);
    var t := YearlyData(records);
    YearlyDataKeys(records);
    forall x | x in records ensures exists i :: 0 <= i < |t| && t[i].year == x.year {
      var i :| 0 <= i < |gs| && gs[i].key == YearKey(x);
      assert t[i].year == x.year;
    }
  }

  lemma YearlyDataValues(records: seq<FareRecord>)
    ensures var t := YearlyData(records);
      forall i :: 0 <= i < |t| ==>
        var g := Where(records, YearKey, t[i].year);
        && g != []
        && t[i].fare == Mean(g, FareOf)
        && t[i].passengers == Sum(g, PassengersOf)
        && t[i].largeMs == Mean(g, LargeMsOf)
  {
    YearlyDataKeys(records);
  }

  /**
   * `airline_yearly_data` has exactly one row per distinct (Year, carrier)
   * of the source, holding the mean fare of that group's rows.
   */
  lemma AirlineYearlyDataSpec(records: seq<FareRecord>)
    ensures var t := AirlineYearlyData(records);
      && (forall i, j :: 0 <= i < j < |t| ==> (t[i].year, t[i].carrier) != (t[j].year, t[j].carrier))
      && (forall x :: x in records ==> exists i :: 0 <= i < |t| && t[i].year == x.year && t[i].carrier == x.carrier)
      && (forall i :: 0 <= i < |t| ==>
            var g := Where(records, YearCarrierKey, (t[i].year, t[i].carrier));
            g != [] && t[i].fare == Mean(g, FareOf))
  {
    AirlineYearlyDataKeys(records);
    AirlineYearlyDataCovers(records);
    AirlineYearlyDataMeans(records);
  }

  lemma AirlineYearlyDataKeys(records: seq<FareRecord>)
    ensures var t := AirlineYearlyData(records);
      forall i :: 0 <= i < |t| ==> (t[i].year, t[i].carrier) == GroupBy(records, YearCarrierKey)[i].key
  {
  }

  lemma AirlineYearlyDataCovers(records: seq<FareRecord>)
    ensures var t := AirlineYearlyData(records);
      forall x :: x in records ==> exists i :: 0 <= i < |t| && t[i].year == x.year && t[i].carrier == x.carrier
  {
    var gs := GroupBy(records, YearCarrierKey);
    var t := AirlineYearlyData(records);
    AirlineYearlyDataKeys(records);
    forall x | x in records ensures exists i :: 0 <= i < |t| && t[i].year == x.year && t[i].carrier == x.carrier {
      var i :| 0 <= i < |gs| && gs[i].key == YearCarrierKey(x);
      assert t[i].year == x.year && t[i].carrier == x.carrier;
    }
  }

  lemma AirlineYearlyDataMeans(records: seq<FareRecord>)
    ensures var t := AirlineYearlyData(records);
      forall i :: 0 <= i < |t| ==>
        var g := Where(records, YearCarrierKey, (t[i].year, t[i].carrier));
        g != [] && t[i].fare == Mean(g, FareOf)
  {
    AirlineYearlyDataKeys(records);
  }

  /**
   * `market_data` has exactly one row per distinct (Year, carrier) of the
   * source, holding the mean dominant-carrier share of that group's rows.
   */
  lemma MarketDataSpec(records: seq<FareRecord>)
    ensures var t := MarketData(records);
      && (forall i, j :: 0 <= i < j < |t| ==> (t[i].year, t[i].carrier) != (t[j].year, t[j].carrier))
      && (forall x :: x in records ==> exists i :: 0 <= i < |t| && t[i].year == x.year && t[i].carrier == x.carrier)
      && (forall i :: 0 <= i < |t| ==>
            var g := Where(records, YearCarrierKey, (t[i].year, t[i].carrier));
            g != [] && t[i].largeMs == Mean(g, LargeMsOf))
  {
    MarketDataKeys(records);
    MarketDataCovers(records);
    MarketDataMeans(records);
  }

  lemma MarketDataKeys(records: seq<FareRecord>)
    ensures var t := MarketData(records);
      forall i :: 0 <= i < |t| ==> (t[i].year, t[i].carrier) == GroupBy(records, YearCarrierKey)[i].key
  {
  }

  lemma MarketDataCovers(records: seq<FareRecord>)
    ensures var t := MarketData(records);
      forall x :: x in records ==> exists i :: 0 <= i < |t| && t[i].year == x.year && t[i].carrier == x.carrier
  {
    var gs := GroupBy(records, YearCarrierKey);
    var t := MarketData(records);
    MarketDataKeys(records);
    forall x | x in records ensures exists i :: 0 <= i < |t| && t[i].year == x.year && t[i].carrier == x.carrier {
      var i :| 0 <= i < |gs| && gs[i].key == YearCarrierKey(x);
      assert t[i].year == x.year && t[i].carrier == x.carrier;
    }
  }

  lemma MarketDataMeans(records: seq<FareRecord>)
    ensures var t := MarketData(records);
      forall i :: 0 <= i < |t| ==>
        var g := Where(records, YearCarrierKey, (t[i].year, t[i].carrier));
        g != [] && t[i].largeMs == Mean(g, LargeMsOf)
  {
    MarketDataKeys(records);
  }

  /**
   * `quarterly_market_data` has exactly one row per distinct
   * (Year, quarter, carrier) of the source, holding the mean
   * dominant-carrier share of that group's rows.
   */
  lemma QuarterlyMarketDataSpec(records: seq<FareRecord>)
    ensures var t := QuarterlyMarketData(records);
      && (forall i, j :: 0 <= i < j < |t| ==> (t[i].year, t[i].quarter, t[i].carrier) != (t[j].year, t[j].quarter, t[j].carrier))
      && (forall x :: x in records ==> exists i :: 0 <= i < |t| && t[i].year == x.year && t[i].quarter == x.quarter && t[i].carrier == x.carrier)
      && (forall i :: 0 <= i < |t| ==>
            var g := Where(records, YearQuarterCarrierKey, (t[i].year, t[i].quarter, t[i].carrier));
            g != [] && t[i].largeMs == Mean(g, LargeMsOf))
  {
    QuarterlyMarketDataKeys(records);
    QuarterlyMarketDataCovers(records);
    QuarterlyMarketDataMeans(records);
  }

  lemma QuarterlyMarketDataKeys(records: seq<FareRecord>)
    ensures var t := QuarterlyMarketData(records);
      forall i :: 0 <= i < |t| ==> (t[i].year, t[i].quarter, t[i].carrier) == GroupBy(records, YearQuarterCarrierKey)[i].key
  {
  }

  lemma QuarterlyMarketDataCovers(records: seq<FareRecord>)
    ensures var t := QuarterlyMarketData(records);
      forall x :: x in records ==> exists i :: 0 <= i < |t| && t[i].year == x.year && t[i].quarter == x.quarter && t[i].carrier == x.carrier
  {
    var gs := GroupBy(records, YearQuarterCarrierKey);
    var t := QuarterlyMarketData(records);
    QuarterlyMarketDataKeys(records);
    forall x | x in records ensures exists i :: 0 <= i < |t| && t[i].year == x.year && t[i].quarter == x.quarter && t[i].carrier == x.carrier {
      var i :| 0 <= i < |gs| && gs[i].key == YearQuarterCarrierKey(x);
      assert t[i].year == x.year && t[i].quarter == x.quarter && t[i].carrier == x.carrier;
    }
  }

  lemma QuarterlyMarketDataMeans(records: seq<FareRecord>)
    ensures var t := QuarterlyMarketData(records);
      forall i :: 0 <= i < |t| ==>
        var g := Where(records, YearQuarterCarrierKey, (t[i].year, t[i].quarter, t[i].carrier));
        g != [] && t[i].largeMs == Mean(g, LargeMsOf)
  {
    QuarterlyMarketDataKeys(records);
  }

  function YearlyPassengers(r: YearlyRow): int { r.passengers }

  /** The yearly passenger totals add up to the passengers of the whole table. */
  lemma YearlyConservesPassengers(records: seq<FareRecord>)
    ensures Sum(YearlyData(records), YearlyPassengers) == Sum(records, PassengersOf)
  {
    var gs := GroupBy(records, YearKey);
    var t := YearlyData(records);
    assert forall i :: 0 <= i < |t| ==> YearlyPassengers(t[i]) == GroupPassengers(gs[i]);
    GroupingConservesPassengers(records, YearKey);
    SumAgrees(YearlyData(records), YearlyPassengers, gs, GroupPassengers);
  }

  /** A yearly mean fare lies between the cheapest and dearest fare of the whole table. */
  lemma YearlyFaresWithin(records: seq<FareRecord>, lo: real, hi: real)
    requires forall x :: x in records ==> lo <= x.fare <= hi
    ensures forall r :: r in YearlyData(records) ==> lo <= r.fare <= hi
  {
    YearlyDataValues(records);
    forall r | r in YearlyData(records) ensures lo <= r.fare <= hi {
      MeanWithin(Where(records, YearKey, r.year), FareOf, lo, hi);
    }
  }

  /** A yearly mean share stays a percentage when every share is one. */
  lemma YearlySharesArePercentages(records: seq<FareRecord>)
    requires forall x :: x in records ==> 0.0 <= x.largeMs <= 100.0
    ensures forall r :: r in YearlyData(records) ==> 0.0 <= r.largeMs <= 100.0
  {
    YearlyDataValues(records);
    forall r | r in YearlyData(records) ensures 0.0 <= r.largeMs <= 100.0 {
      MeanWithin(Where(records, YearKey, r.year), LargeMsOf, 0.0, 100.0);
    }
  }

  /**
   * Shares averaged per (Year, carrier) and per (Year, quarter, carrier)
   * stay percentages when every share is one.
   */
  lemma ShareMeansArePercentages(records: seq<FareRecord>)
    requires forall x :: x in records ==> 0.0 <= x.largeMs <= 100.0
    ensures forall r :: r in MarketData(records) ==> 0.0 <= r.largeMs <= 100.0
    ensures forall r :: r in QuarterlyMarketData(records) ==> 0.0 <= r.largeMs <= 100.0
  {
    MarketDataSpec(records);
    QuarterlyMarketDataSpec(records);
    forall r | r in MarketData(records) ensures 0.0 <= r.largeMs <= 100.0 {
      MeanWithin(Where(records, YearCarrierKey, (r.year, r.carrier)), LargeMsOf, 0.0, 100.0);
    }
    forall r | r in QuarterlyMarketData(records) ensures 0.0 <= r.largeMs <= 100.0 {
      MeanWithin(Where(records, YearQuarterCarrierKey, (r.year, r.quarter, r.carrier)), LargeMsOf, 0.0, 100.0);
    }
  }

  /** Two fares of 200 and 300 in the same year average to 250. */
  lemma YearlyFareExample(a: FareRecord, b: FareRecord)
    requires a.year == 2019 && b.year == 2019
    requires a.fare == 200.0 && b.fare == 300.0
    ensures |YearlyData([a, b])| == 1
    ensures YearlyData([a, b])[0].year == 2019
    ensures YearlyData([a, b])[0].fare == 250.0
    ensures YearlyData([a, b])[0].passengers == a.passengers + b.passengers
  {
    OneYearKeys(a, b);
    OneYearGroup(a, b);
    var gs := GroupBy([a, b], YearKey);
    assert |gs| == 1 && gs[0] == Group(2019, [a, b]);
    assert Mean([a, b], FareOf) == 250.0;
  }

  /** Two rows of the same year have that year as their only key. */
  lemma OneYearKeys(a: FareRecord, b: FareRecord)
    requires a.year == b.year
    ensures Keys([a, b], YearKey) == [a.year]
  {
    var c := Column([a, b], YearKey);
    assert |c| == 2 && c[0] == YearKey([a, b][0]) && c[1] == YearKey([a, b][1]);
    assert c == [a.year, a.year];
    assert c[..1] == [a.year] && [a.year][..0] == [];
  }

  /** The group of their year holds both rows, with fares and passengers added up. */
  lemma OneYearGroup(a: FareRecord, b: FareRecord)
    requires a.year == b.year
    ensures Where([a, b], YearKey, a.year) == [a, b]
    ensures RealSum([a, b], FareOf) == a.fare + b.fare
    ensures Sum([a, b], PassengersOf) == a.passengers + b.passengers
  {
    assert [a, b][..1] == [a] && [a][..0] == [];
    assert Where([a], YearKey, a.year) == [a];
    assert RealSum([a], FareOf) == a.fare;
    assert Sum([a], PassengersOf) == a.passengers;
  }
}
