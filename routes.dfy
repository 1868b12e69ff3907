/**
 * The route-map pipeline: passengers summed per route (`route_data`), both
 * endpoints parsed into coordinates, routes with a missing coordinate
 * dropped, and the five busiest routes kept (`top_5_routes`).
 */
module Routes {
  import opened Wrappers
  import opened Geo
  import opened Table

  /** A row of `route_data` before the coordinates are added. */
  datatype RouteTotal = RouteTotal(key: RouteKey, passengers: int)

  /** A row of `route_data` with the columns lat1, lon1, lat2 and lon2. */
  datatype Route = Route(
    key: RouteKey,
    passengers: int,
    lat1: Option<real>,
    lon1: Option<real>,
    lat2: Option<real>,
    lon2: Option<real>)

  /** How many routes the map shows: `head(5)`. */
  const TopCount: nat := 5

  function TotalPassengers(r: RouteTotal): int { r.passengers }

  /** `groupby([city1, city2, Geocoded_City1, Geocoded_City2])['passengers'].sum()`. */
  function RouteTotals(records: seq<FareRecord>): seq<RouteTotal> {
    var gs := GroupBy(records, RouteKeyOf);
    seq(|gs|, i requires 0 <= i < |gs| => RouteTotal(gs[i].key, GroupPassengers(gs[i])))
  }

  /**
   * `route_data` has exactly one row per distinct route key of the source,
   * and its passengers are the sum over the source rows with that key.
   */
  lemma RouteTotalsSpec(records: seq<FareRecord>)
    ensures var t := RouteTotals(records);
      && (forall i, j :: 0 <= i < j < |t| ==> t[i].key != t[j].key)
      && (forall x :: x in records ==> exists i :: 0 <= i < |t| && t[i].key == RouteKeyOf(x))
      && (forall i :: 0 <= i < |t| ==>
            var g := Where(records, RouteKeyOf, t[i].key);
            g != [] && t[i].passengers == Sum(g, PassengersOf))
  {
    RouteTotalsKeys(records);
    RouteTotalsCovers(records);
    RouteTotalsSums(records);
  }

  lemma RouteTotalsSums(records: seq<FareRecord>)
    ensures var t := RouteTotals(records);
      forall i :: 0 <= i < |t| ==>
        var g := Where(records, RouteKeyOf, t[i].key);
        g != [] && t[i].passengers == Sum(g, PassengersOf)
  {
    RouteTotalsKeys(records);
  }

  lemma RouteTotalsKeys(records: seq<FareRecord>)
    ensures var t := RouteTotals(records);
      && |t| == |GroupBy(records, RouteKeyOf)|
      && forall i :: 0 <= i < |t| ==>
           t[i].key == GroupBy(records, RouteKeyOf)[i].key && t[i].passengers == GroupPassengers(GroupBy(records, RouteKeyOf)[i])
  {
  }

  lemma RouteTotalsCovers(records: seq<FareRecord>)
    ensures var t := RouteTotals(records);
      forall x :: x in records ==> exists i :: 0 <= i < |t| && t[i].key == RouteKeyOf(x)
  {
    var gs := GroupBy(records, RouteKeyOf);
    var t := RouteTotals(records);
    RouteTotalsKeys(records);
    forall x | x in records ensures exists i :: 0 <= i < |t| && t[i].key == RouteKeyOf(x) {
      var i :| 0 <= i < |gs| && gs[i].key == RouteKeyOf(x);
      assert t[i].key == RouteKeyOf(x);
    }
  }

  /** Grouping by route conserves the total number of passengers. */
  lemma RouteTotalsConservePassengers(records: seq<FareRecord>)
    ensures Sum(RouteTotals(records), TotalPassengers) == Sum(records, PassengersOf)
  {
    var gs := GroupBy(records, RouteKeyOf);
    var t := RouteTotals(records);
    RouteTotalsKeys(records);
    GroupingConservesPassengers(records, RouteKeyOf);
    SumAgrees(t, TotalPassengers, gs, GroupPassengers);
  }

  /** One route with its two endpoints parsed. */
  function Locate(t: RouteTotal, num: string -> Option<real>): Route {
    var (lat1, lon1) := ParseLatLon(t.key.geo1, num);
    var (lat2, lon2) := ParseLatLon(t.key.geo2, num);
    Route(t.key, t.passengers, lat1, lon1, lat2, lon2)
  }

  /** The column assignments that add lat1, lon1, lat2 and lon2 to every route. */
  function WithCoordinates(t: seq<RouteTotal>, num: string -> Option<real>): seq<Route> {
    seq(|t|, i requires 0 <= i < |t| => Locate(t[i], num))
  }

  /** No coordinate of the route is absent. */
  predicate Complete(r: Route) {
    r.lat1.Some? && r.lon1.Some? && r.lat2.Some? && r.lon2.Some?
  }

  /**
   * `dropna(subset=['lat1', 'lon1', 'lat2', 'lon2'])`: keeps, in order, the
   * routes with all four coordinates, each as often as it occurs, and
   * removes every other route.
   */
  function DropIncomplete(rs: seq<Route>): (r: seq<Route>)
    ensures forall x :: x in r ==> Complete(x)
    ensures forall x :: multiset(r)[x] == if Complete(x) then multiset(rs)[x] else 0
    ensures |r| <= |rs|
  {
    if rs == [] then []
    else
      var init, last := rs[..|rs| - 1], rs[|rs| - 1];
      assert rs == init + [last];
      DropIncomplete(init) + (if Complete(last) then [last] else [])
  }

  /** The routes the map can draw: `route_data` after the `dropna`. */
  function ValidRoutes(records: seq<FareRecord>, num: string -> Option<real>): seq<Route> {
    DropIncomplete(WithCoordinates(RouteTotals(records), num))
  }

  /**
   * Every valid route has all four coordinates, which are its two parsed
   * geocodes, and carries the passenger total of the source rows with its key.
   */
  lemma ValidRoutesSound(records: seq<FareRecord>, num: string -> Option<real>)
    ensures forall r :: r in ValidRoutes(records, num) ==>
              && Complete(r)
              && Where(records, RouteKeyOf, r.key) != []
              && r.passengers == Sum(Where(records, RouteKeyOf, r.key), PassengersOf)
              && (r.lat1, r.lon1) == ParseLatLon(r.key.geo1, num)
              && (r.lat2, r.lon2) == ParseLatLon(r.key.geo2, num)
  {
    var v := ValidRoutes(records, num);
    forall r | r in v
      ensures Where(records, RouteKeyOf, r.key) != []
      ensures r.passengers == Sum(Where(records, RouteKeyOf, r.key), PassengersOf)
      ensures (r.lat1, r.lon1) == ParseLatLon(r.key.geo1, num)
      ensures (r.lat2, r.lon2) == ParseLatLon(r.key.geo2, num)
    {
      assert multiset(v)[r] > 0;
      LocatedRoute(records, num, r);
    }
  }

  /**
   * The `dropna` removes a route exactly when one of its geocodes does not
   * parse: a source row's route is among the valid routes if and only if
   * both of its geocodes parse.
   */
  lemma ValidRoutesKeepParsable(records: seq<FareRecord>, num: string -> Option<real>)
    ensures forall x :: x in records ==>
              (ParseLatLon(x.geo1, num).0.Some? && ParseLatLon(x.geo2, num).0.Some?
               <==> exists r :: r in ValidRoutes(records, num) && r.key == RouteKeyOf(x))
  {
    var v := ValidRoutes(records, num);
    forall x | x in records
      ensures ParseLatLon(x.geo1, num).0.Some? && ParseLatLon(x.geo2, num).0.Some?
              <==> exists r :: r in v && r.key == RouteKeyOf(x)
    {
      if ParseLatLon(x.geo1, num).0.Some? && ParseLatLon(x.geo2, num).0.Some? {
        ParsableRouteKept(records, num, x);
      }
      if exists r :: r in v && r.key == RouteKeyOf(x) {
        var r :| r in v && r.key == RouteKeyOf(x);
        assert multiset(v)[r] > 0;
        LocatedRoute(records, num, r);
      }
    }
  }

  /** A route with coordinates added comes from a route total of the source rows. */
  lemma LocatedRoute(records: seq<FareRecord>, num: string -> Option<real>, r: Route)
    requires r in WithCoordinates(RouteTotals(records), num)
    ensures Where(records, RouteKeyOf, r.key) != []
    ensures r.passengers == Sum(Where(records, RouteKeyOf, r.key), PassengersOf)
    ensures (r.lat1, r.lon1) == ParseLatLon(r.key.geo1, num)
    ensures (r.lat2, r.lon2) == ParseLatLon(r.key.geo2, num)
  {
    var t := RouteTotals(records);
    var w := WithCoordinates(t, num);
    var i :| 0 <= i < |w| && w[i] == r;
    RouteTotalsKeys(records);
    var g := GroupBy(records, RouteKeyOf)[i];
    assert g.rows == Where(records, RouteKeyOf, g.key) && g.rows != [];
    assert r == Locate(t[i], num);
  }

  /** A source row whose two geocodes parse has its route among the valid routes. */
  lemma ParsableRouteKept(records: seq<FareRecord>, num: string -> Option<real>, x: FareRecord)
    requires x in records
    requires ParseLatLon(x.geo1, num).0.Some? && ParseLatLon(x.geo2, num).0.Some?
    ensures exists r :: r in ValidRoutes(records, num) && r.key == RouteKeyOf(x)
  {
    var t := RouteTotals(records);
    var w := WithCoordinates(t, num);
    RouteTotalsCovers(records);
    var i :| 0 <= i < |t| && t[i].key == RouteKeyOf(x);
    assert w[i] == Locate(t[i], num);
    assert Complete(w[i]);
    assert multiset(w)[w[i]] > 0;
    assert multiset(ValidRoutes(records, num))[w[i]] > 0;
  }

  /** Passenger totals never increase along the sequence. */
  predicate NonIncreasing(rs: seq<Route>) {
    forall i, j :: 0 <= i < j < |rs| ==> rs[i].passengers >= rs[j].passengers
  }

  /** Places `x` in a non-increasing sequence, keeping it non-increasing. */
  function Insert(x: Route, rs: seq<Route>): (r: seq<Route>)
    requires NonIncreasing(rs)
    ensures NonIncreasing(r)
    ensures multiset(r) == multiset(rs) + multiset{x}
    ensures |r| == |rs| + 1 && (r[0] == x || (rs != [] && r[0] == rs[0]))
  {
    if rs == [] || x.passengers >= rs[0].passengers then [x] + rs
    else
      assert rs == [rs[0]] + rs[1..];
      [rs[0]] + Insert(x, rs[1..])
  }

  /**
   * `sort_values(by='passengers', ascending=False)`: a rearrangement of the
   * routes into non-increasing passenger order. The order among equal
   * totals is not fixed.
   */
  function SortByPassengers(rs: seq<Route>): (r: seq<Route>)
    ensures NonIncreasing(r)
    ensures multiset(r) == multiset(rs)
  {
    if rs == [] then []
    else
      assert rs == [rs[0]] + rs[1..];
      Insert(rs[0], SortByPassengers(rs[1..]))
  }

  function Min(a: int, b: int): int { if a <= b then a else b }

  /**
   * `sort_values(...).head(5)`: min(5, n) of the routes, in non-increasing
   * passenger order; no route left out has more passengers than any route
   * kept.
   */
  function TopRoutes(rs: seq<Route>): (r: seq<Route>)
    ensures |r| == Min(TopCount, |rs|)
    ensures multiset(r) <= multiset(rs)
    ensures NonIncreasing(r)
    ensures forall x, k :: x in multiset(rs) - multiset(r) && 0 <= k < |r| ==> x.passengers <= r[k].passengers
  {
    var sorted := SortByPassengers(rs);
    var n := Min(TopCount, |sorted|);
    PrefixDominates(sorted, n);
    sorted[..n]
  }

  /** In a non-increasing sequence, nothing after the first n exceeds anything in them. */
  lemma PrefixDominates(s: seq<Route>, n: nat)
    requires NonIncreasing(s) && n <= |s|
    ensures multiset(s[..n]) <= multiset(s)
    ensures forall x, k :: x in multiset(s) - multiset(s[..n]) && 0 <= k < n ==> x.passengers <= s[k].passengers
  {
    assert s == s[..n] + s[n..];
    assert multiset(s) - multiset(s[..n]) == multiset(s[n..]);
    forall x, k | x in multiset(s) - multiset(s[..n]) && 0 <= k < n ensures x.passengers <= s[k].passengers {
      assert x in s[n..];
      var j :| n <= j < |s| && s[j] == x;
    }
  }

  /** `top_5_routes`, computed from the source rows. */
  function TopFiveRoutes(records: seq<FareRecord>, num: string -> Option<real>): seq<Route> {
    TopRoutes(ValidRoutes(records, num))
  }

  /**
   * Every route on the map has all four coordinates, which are its parsed
   * geocodes, and carries the passenger total of its source rows; the map
   * shows min(5, number of valid routes) routes in non-increasing order.
   */
  lemma TopFiveRoutesSpec(records: seq<FareRecord>, num: string -> Option<real>)
    ensures var top := TopFiveRoutes(records, num);
      && |top| == Min(TopCount, |ValidRoutes(records, num)|)
      && NonIncreasing(top)
      && forall r :: r in top ==>
           && Complete(r)
           && r in ValidRoutes(records, num)
           && r.passengers == Sum(Where(records, RouteKeyOf, r.key), PassengersOf)
           && (r.lat1, r.lon1) == ParseLatLon(r.key.geo1, num)
           && (r.lat2, r.lon2) == ParseLatLon(r.key.geo2, num)
  {
    var v := ValidRoutes(records, num);
    var top := TopFiveRoutes(records, num);
    ValidRoutesSound(records, num);
    forall r | r in top ensures r in v {
      assert multiset(top)[r] > 0;
      assert multiset(v)[r] > 0;
    }
  }

  /** A route whose origin or destination geocode reads "bad" is never drawn. */
  lemma MalformedGeocodeNotDrawn(records: seq<FareRecord>, num: string -> Option<real>)
    ensures forall r :: r in TopFiveRoutes(records, num) ==>
              r.key.geo1 != Text("bad") && r.key.geo2 != Text("bad")
  {
    TopFiveRoutesSpec(records, num);
    BadParsesToNothing(num);
  }
}
