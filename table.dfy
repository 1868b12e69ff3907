/**
 * The source table (one row per carrier, year, quarter and route) and the
 * pandas operations the dashboard applies to it: `unique()`,
 * `groupby(keys)`, and the `sum` and `mean` aggregates.
 *
 * Groups come out in order of first appearance of their key; see README
 * for how this relates to pandas, which sorts the keys.
 */
module Table {
  import opened Geo

  /** One row of the fare dataset. */
  datatype FareRecord = FareRecord(
    year: int,
    quarter: int,
    carrier: string,      // carrier_full
    city1: string,
    city2: string,
    geo1: Cell,           // Geocoded_City1
    geo2: Cell,           // Geocoded_City2
    fare: real,
    passengers: int,
    largeMs: real)        // market share of the largest carrier, in percent

  /** The key of a route group: `['city1', 'city2', 'Geocoded_City1', 'Geocoded_City2']`. */
  datatype RouteKey = RouteKey(city1: string, city2: string, geo1: Cell, geo2: Cell)

  function YearKey(r: FareRecord): int { r.year }
  function YearCarrierKey(r: FareRecord): (int, string) { (r.year, r.carrier) }
  function YearQuarterCarrierKey(r: FareRecord): (int, int, string) { (r.year, r.quarter, r.carrier) }
  function RouteKeyOf(r: FareRecord): RouteKey { RouteKey(r.city1, r.city2, r.geo1, r.geo2) }

  function PassengersOf(r: FareRecord): int { r.passengers }
  function FareOf(r: FareRecord): real { r.fare }
  function LargeMsOf(r: FareRecord): real { r.largeMs }

  /** `Series.unique()`: the distinct values, in order of first appearance. */
  function Unique<T(==,!new)>(s: seq<T>): (r: seq<T>)
    ensures forall x :: x in r <==> x in s
    ensures forall i, j :: 0 <= i < j < |r| ==> r[i] != r[j]
    ensures |r| <= |s|
  {
    if s == [] then []
    else
      var r := Unique(s[..|s| - 1]);
      if s[|s| - 1] in r then r else r + [s[|s| - 1]]
  }

  /** The key column of a table. */
  function Column<K>(rows: seq<FareRecord>, key: FareRecord -> K): seq<K> {
    seq(|rows|, i requires 0 <= i < |rows| => key(rows[i]))
  }

  /** The distinct group keys, in order of first appearance. */
  function Keys<K(==,!new)>(rows: seq<FareRecord>, key: FareRecord -> K): seq<K> {
    Unique(Column(rows, key))
  }

  /** The rows whose key is `k`, in table order: one group of `groupby`. */
  function Where<K(==,!new)>(rows: seq<FareRecord>, key: FareRecord -> K, k: K): (g: seq<FareRecord>)
    ensures forall x :: x in g <==> x in rows && key(x) == k
    ensures forall x :: multiset(g)[x] == if key(x) == k then multiset(rows)[x] else 0
  {
    if rows == [] then []
    else
      var init, last := rows[..|rows| - 1], rows[|rows| - 1];
      assert rows == init + [last];
      Where(init, key, k) + (if key(last) == k then [last] else [])
  }

  /** A group: its key and its rows. */
  datatype Group<K> = Group(key: K, rows: seq<FareRecord>)

  /** The groups for the keys `ks`, in the order of `ks`. */
  function GroupsOf<K(==,!new)>(rows: seq<FareRecord>, key: FareRecord -> K, ks: seq<K>): (gs: seq<Group<K>>)
    ensures |gs| == |ks|
    ensures forall i :: 0 <= i < |ks| ==> gs[i] == Group(ks[i], Where(rows, key, ks[i]))
  {
    if ks == [] then []
    else GroupsOf(rows, key, ks[..|ks| - 1]) + [Group(ks[|ks| - 1], Where(rows, key, ks[|ks| - 1]))]
  }

  /**
   * `rows.groupby(key)`: one group per distinct key, holding exactly the
   * rows with that key; no group is empty and every row has its group.
   */
  function GroupBy<K(==,!new)>(rows: seq<FareRecord>, key: FareRecord -> K): (gs: seq<Group<K>>)
    ensures forall i, j :: 0 <= i < j < |gs| ==> gs[i].key != gs[j].key
    ensures forall i :: 0 <= i < |gs| ==> gs[i].rows == Where(rows, key, gs[i].key) && gs[i].rows != []
    ensures forall x :: x in rows ==> exists i :: 0 <= i < |gs| && gs[i].key == key(x)
  {
    var ks := Keys(rows, key);
    KeysCover(rows, key);
    KeysOccur(rows, key);
    GroupsOf(rows, key, ks)
  }

  /** Every row's key is among the distinct keys. */
  lemma KeysCover<K(!new)>(rows: seq<FareRecord>, key: FareRecord -> K)
    ensures forall x :: x in rows ==> key(x) in Keys(rows, key)
  {
    forall x | x in rows ensures key(x) in Keys(rows, key) {
      var i :| 0 <= i < |rows| && rows[i] == x;
      assert Column(rows, key)[i] == key(x);
    }
  }

  /** Every distinct key is the key of some row. */
  lemma KeysOccur<K(!new)>(rows: seq<FareRecord>, key: FareRecord -> K)
    ensures forall k :: k in Keys(rows, key) ==> Where(rows, key, k) != []
  {
    forall k | k in Keys(rows, key) ensures Where(rows, key, k) != [] {
      var c := Column(rows, key);
      var j :| 0 <= j < |c| && c[j] == k;
      assert rows[j] in Where(rows, key, k);
    }
  }

  /** `sum` of an integer column. */
  function Sum<T>(s: seq<T>, f: T -> int): int {
    if s == [] then 0 else Sum(s[..|s| - 1], f) + f(s[|s| - 1])
  }

  /** Exact sum of a real column. */
  function RealSum<T>(s: seq<T>, f: T -> real): real {
    if s == [] then 0.0 else RealSum(s[..|s| - 1], f) + f(s[|s| - 1])
  }

  /** `mean` of a real column over a non-empty group, computed exactly. */
  function Mean(g: seq<FareRecord>, f: FareRecord -> real): real
    requires g != []
  {
    RealSum(g, f) / (|g| as real)
  }

  /** The passengers of one group. */
  function GroupPassengers<K>(g: Group<K>): int {
    Sum(g.rows, PassengersOf)
  }

  /** Two columns that agree row by row have the same sum. */
  lemma {:induction false} SumAgrees<A, B>(a: seq<A>, f: A -> int, b: seq<B>, h: B -> int)
    requires |a| == |b|
    requires forall i :: 0 <= i < |a| ==> f(a[i]) == h(b[i])
    ensures Sum(a, f) == Sum(b, h)
  {
    if a != [] {
      SumAgrees(a[..|a| - 1], f, b[..|b| - 1], h);
    }
  }

  /** Sum of a column extended by one row. */
  lemma SumAppend<T>(s: seq<T>, x: T, f: T -> int)
    ensures Sum(s + [x], f) == Sum(s, f) + f(x)
  {
    assert (s + [x])[..|s|] == s;
  }

  /** Appending a row extends the group of its key and no other. */
  lemma WhereAppend<K(!new)>(rows: seq<FareRecord>, x: FareRecord, key: FareRecord -> K, k: K)
    ensures Where(rows + [x], key, k) == Where(rows, key, k) + (if key(x) == k then [x] else [])
  {
    assert (rows + [x])[..|rows|] == rows;
  }

  /** The total over keys `ks` plus one more key. */
  lemma GroupsOfSnoc<K(!new)>(rows: seq<FareRecord>, key: FareRecord -> K, ks: seq<K>, k: K)
    ensures Sum(GroupsOf(rows, key, ks + [k]), GroupPassengers)
            == Sum(GroupsOf(rows, key, ks), GroupPassengers) + Sum(Where(rows, key, k), PassengersOf)
  {
    assert (ks + [k])[..|ks|] == ks;
    SumAppend(GroupsOf(rows, key, ks), Group(k, Where(rows, key, k)), GroupPassengers);
  }

  /**
   * Appending one row to the table adds its passengers to the total over
   * distinct keys `ks` exactly when its key is among them.
   */
  lemma {:induction false} GroupsOfAppend<K(!new)>(rows: seq<FareRecord>, x: FareRecord, key: FareRecord -> K, ks: seq<K>)
    requires forall i, j :: 0 <= i < j < |ks| ==> ks[i] != ks[j]
    ensures Sum(GroupsOf(rows + [x], key, ks), GroupPassengers)
            == Sum(GroupsOf(rows, key, ks), GroupPassengers) + (if key(x) in ks then x.passengers else 0)
  {
    if ks != [] {
      var init, k := ks[..|ks| - 1], ks[|ks| - 1];
      assert ks == init + [k];
      GroupsOfAppend(rows, x, key, init);
      GroupsOfSnoc(rows + [x], key, init, k);
      GroupsOfSnoc(rows, key, init, k);
      WhereAppend(rows, x, key, k);
      if key(x) == k {
        SumAppend(Where(rows, key, k), x, PassengersOf);
        assert key(x) !in init;
      } else {
        assert Where(rows, key, k) + [] == Where(rows, key, k);
        assert key(x) in ks <==> key(x) in init;
      }
    }
  }

  /**
   * Grouping conserves passengers: the group totals add up to the total of
   * the table.
   */
  lemma GroupingConservesPassengers<K(!new)>(rows: seq<FareRecord>, key: FareRecord -> K)
    ensures Sum(GroupBy(rows, key), GroupPassengers) == Sum(rows, PassengersOf)
  {
    KeyedTotal(rows, key);
  }

  /** Conservation over the distinct keys, by induction on the table. */
  lemma {:induction false} KeyedTotal<K(!new)>(rows: seq<FareRecord>, key: FareRecord -> K)
    ensures Sum(GroupsOf(rows, key, Keys(rows, key)), GroupPassengers) == Sum(rows, PassengersOf)
  {
    if rows != [] {
      var init, x := rows[..|rows| - 1], rows[|rows| - 1];
      assert rows == init + [x];
      KeyedTotal(init, key);
      KeyedTotalStep(init, x, key);
      SumAppend(init, x, PassengersOf);
    }
  }

  /** One more row adds its passengers to the total over the groups, whether its key is new or not. */
  lemma KeyedTotalStep<K(!new)>(rows: seq<FareRecord>, x: FareRecord, key: FareRecord -> K)
    ensures Sum(GroupsOf(rows + [x], key, Keys(rows + [x], key)), GroupPassengers)
            == Sum(GroupsOf(rows, key, Keys(rows, key)), GroupPassengers) + x.passengers
  {
    if key(x) in Keys(rows, key) {
      KeysAppendOld(rows, x, key);
      OldKeyStep(rows, x, key);
    } else {
      KeysAppendNew(rows, x, key);
      NewKeyStep(rows, x, key);
    }
  }

  /** The step for a row whose key already has a group: that group gains the row. */
  lemma OldKeyStep<K(!new)>(rows: seq<FareRecord>, x: FareRecord, key: FareRecord -> K)
    requires key(x) in Keys(rows, key)
    ensures Sum(GroupsOf(rows + [x], key, Keys(rows, key)), GroupPassengers)
            == Sum(GroupsOf(rows, key, Keys(rows, key)), GroupPassengers) + x.passengers
  {
    GroupsOfAppend(rows, x, key, Keys(rows, key));
  }

  /** The step for a row whose key is new: the new group holds just that row. */
  lemma NewKeyStep<K(!new)>(rows: seq<FareRecord>, x: FareRecord, key: FareRecord -> K)
    requires key(x) !in Keys(rows, key)
    ensures Sum(GroupsOf(rows + [x], key, Keys(rows, key) + [key(x)]), GroupPassengers)
            == Sum(GroupsOf(rows, key, Keys(rows, key)), GroupPassengers) + x.passengers
  {
    GroupsOfAppend(rows, x, key, Keys(rows, key));
    NewKeyTotal(rows, x, key);
  }

  /** A row with a new key opens a group of its own holding just that row. */
  lemma NewKeyTotal<K(!new)>(rows: seq<FareRecord>, x: FareRecord, key: FareRecord -> K)
    requires key(x) !in Keys(rows, key)
    ensures Sum(GroupsOf(rows + [x], key, Keys(rows, key) + [key(x)]), GroupPassengers)
            == Sum(GroupsOf(rows + [x], key, Keys(rows, key)), GroupPassengers) + x.passengers
  {
    var ks := Keys(rows, key);
    GroupsOfSnoc(rows + [x], key, ks, key(x));
    WhereAppend(rows, x, key, key(x));
    KeyOfGroup(rows, key, key(x));
    assert [] + [x] == [x];
    SumAppend([], x, PassengersOf);
  }

  /** A key with a non-empty group is one of the distinct keys. */
  lemma KeyOfGroup<K(!new)>(rows: seq<FareRecord>, key: FareRecord -> K, k: K)
    ensures Where(rows, key, k) != [] ==> k in Keys(rows, key)
  {
    var g := Where(rows, key, k);
    if g != [] {
      assert g[0] in g;
      KeysCover(rows, key);
    }
  }

  /** The distinct keys of a table extended by one row. */
  lemma KeysAppend<K(!new)>(rows: seq<FareRecord>, x: FareRecord, key: FareRecord -> K)
    ensures Keys(rows + [x], key)
            == if key(x) in Keys(rows, key) then Keys(rows, key) else Keys(rows, key) + [key(x)]
  {
    var c := Column(rows + [x], key);
    assert c[..|rows|] == Column(rows, key);
    assert c[|rows|] == key(x);
  }

  /** A row with a key already seen adds no key. */
  lemma KeysAppendOld<K(!new)>(rows: seq<FareRecord>, x: FareRecord, key: FareRecord -> K)
    requires key(x) in Keys(rows, key)
    ensures Keys(rows + [x], key) == Keys(rows, key)
  {
    KeysAppend(rows, x, key);
  }

  /** A row with a new key adds that key at the end. */
  lemma KeysAppendNew<K(!new)>(rows: seq<FareRecord>, x: FareRecord, key: FareRecord -> K)
    requires key(x) !in Keys(rows, key)
    ensures Keys(rows + [x], key) == Keys(rows, key) + [key(x)]
  {
    KeysAppend(rows, x, key);
  }

  /** A real column whose values lie in [lo, hi] sums to between n*lo and n*hi. */
  lemma {:induction false} RealSumWithin(g: seq<FareRecord>, f: FareRecord -> real, lo: real, hi: real)
    requires forall x :: x in g ==> lo <= f(x) <= hi
    ensures lo * (|g| as real) <= RealSum(g, f) <= hi * (|g| as real)
  {
    if g != [] {
      RealSumWithin(g[..|g| - 1], f, lo, hi);
      assert g[|g| - 1] in g;
    }
  }

  /** The mean of a group lies between the smallest and largest values it averages. */
  lemma MeanWithin(g: seq<FareRecord>, f: FareRecord -> real, lo: real, hi: real)
    requires g != []
    requires forall x :: x in g ==> lo <= f(x) <= hi
    ensures lo <= Mean(g, f) <= hi
  {
    RealSumWithin(g, f, lo, hi);
    var n := |g| as real;
    var s := RealSum(g, f);
    QuotientBounds(s, n, lo, hi);
  }

  /** Dividing bounds on a sum of n values by n gives bounds on their mean. */
  lemma QuotientBounds(s: real, n: real, lo: real, hi: real)
    requires n > 0.0
    requires lo * n <= s <= hi * n
    ensures lo <= s / n <= hi
  {
    assert s / n - lo == (s - lo * n) / n;
    assert hi - s / n == (hi * n - s) / n;
  }
}
