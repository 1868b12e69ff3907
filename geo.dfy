/**
 * Parsing of the geocode columns (`Geocoded_City1`, `Geocoded_City2`),
 * whose cells hold text of the form "(lat,lon)".
 *
 * Python's `float()` is not modelled: every function here takes the
 * number parser `num` as a parameter, which returns None exactly where
 * `float()` raises ValueError.
 */
module Geo {
  import opened Wrappers
  import opened Strings

  /** A geocode cell: text, or a value that is not a string (NaN for an empty CSV cell). */
  datatype Cell = Text(text: string) | Missing

  /** The pair `parse_lat_lon` returns; None stands for Python's None. */
  type LatLon = (Option<real>, Option<real>)

  /**
   * `parse_lat_lon`: strip parentheses from both ends, split on ',',
   * require exactly two pieces and convert both. Every failure (a cell that
   * is not text, a piece count other than two, a piece that is not a number)
   * yields (None, None): the two components are absent together.
   */
  function ParseLatLon(geo: Cell, num: string -> Option<real>): (r: LatLon)
    ensures r.0.Some? <==> r.1.Some?
    ensures r.0.Some? ==> geo.Text? && Count(StripParens(geo.text), ',') == 1
    ensures geo.Missing? ==> r == (None, None)
  {
    match geo
    case Missing => (None, None)
    case Text(s) =>
      var pieces := Split(StripParens(s), ',');
      if |pieces| != 2 then (None, None)
      else
        var lat, lon := num(pieces[0]), num(pieces[1]);
        if lat.None? || lon.None? then (None, None) else (lat, lon)
  }

  /** The geocode text written for a latitude text `a` and a longitude text `b`. */
  function FormatGeo(a: string, b: string): string {
    "(" + a + "," + b + ")"
  }

  /**
   * When the stripped text is two comma-free pieces around one comma, the
   * result is those two pieces converted, in order, or (None, None) if
   * either does not convert.
   */
  lemma ParseLatLonOfParts(s: string, a: string, b: string, num: string -> Option<real>)
    requires StripParens(s) == a + [','] + b
    requires ',' !in a && ',' !in b
    ensures ParseLatLon(Text(s), num)
            == if num(a).Some? && num(b).Some? then (num(a), num(b)) else (None, None)
  {
    SplitJoin([a, b], ',');
    assert Join([a, b], ',') == a + [','] + Join([b], ',');
  }

  /**
   * Success happens only in that case: a result with coordinates means the
   * stripped text is two comma-free pieces around one comma, both of which
   * convert, and the result is their values in order.
   */
  lemma ParseLatLonSuccess(s: string, num: string -> Option<real>)
    requires ParseLatLon(Text(s), num).0.Some?
    ensures var p := Split(StripParens(s), ',');
            && |p| == 2
            && StripParens(s) == p[0] + [','] + p[1]
            && ',' !in p[0] && ',' !in p[1]
            && num(p[0]).Some? && num(p[1]).Some?
            && ParseLatLon(Text(s), num) == (num(p[0]), num(p[1]))
  {
    var p := Split(StripParens(s), ',');
    JoinSplit(StripParens(s), ',');
    assert Join(p, ',') == p[0] + [','] + Join(p[1..], ',');
  }

  /** Stripping the written form recovers the text between the parentheses. */
  lemma StripFormatted(a: string, b: string)
    requires a == [] || !IsParen(a[0])
    requires b == [] || !IsParen(b[|b| - 1])
    ensures StripParens(FormatGeo(a, b)) == a + [','] + b
  {
    var m := a + [','] + b;
    assert FormatGeo(a, b) == ['('] + (m + [')']);
    assert !IsParen(m[0]) by {
      assert m[0] == if a == [] then ',' else a[0];
    }
    assert !IsParen(m[|m| - 1]) by {
      assert m[|m| - 1] == if b == [] then ',' else b[|b| - 1];
    }
    StripOneLeft(m + [')']);
    StripOneRight(m);
  }

  /** One leading '(' goes, and a following non-parenthesis stops the strip. */
  lemma StripOneLeft(t: string)
    requires t != [] && !IsParen(t[0])
    ensures StripLeft(['('] + t) == t
  {
    assert (['('] + t)[1..] == t;
  }

  /** One trailing ')' goes, and a preceding non-parenthesis stops the strip. */
  lemma StripOneRight(t: string)
    requires t != [] && !IsParen(t[|t| - 1])
    ensures StripRight(t + [')']) == t
  {
    assert (t + [')'])[..|t|] == t;
  }

  /**
   * Round trip: the written form of two comma-free numeric texts parses back
   * to their values; if either does not convert the result is (None, None).
   */
  lemma ParseFormatted(a: string, b: string, num: string -> Option<real>)
    requires ',' !in a && ',' !in b
    requires a == [] || !IsParen(a[0])
    requires b == [] || !IsParen(b[|b| - 1])
    ensures ParseLatLon(Text(FormatGeo(a, b)), num)
            == if num(a).Some? && num(b).Some? then (num(a), num(b)) else (None, None)
  {
    StripFormatted(a, b);
    ParseLatLonOfParts(FormatGeo(a, b), a, b, num);
  }

  /** A text without a comma never parses, whatever the number parser accepts. */
  lemma NoCommaNeverParses(s: string, num: string -> Option<real>)
    requires ',' !in s
    ensures ParseLatLon(Text(s), num) == (None, None)
  {
    var t := StripLeft(s);
    assert forall i :: 0 <= i < |t| ==> t[i] == s[|s| - |t| + i];
    var u := StripRight(t);
    assert forall i :: 0 <= i < |u| ==> u[i] == t[i];
    assert ',' !in u;
    SplitWithoutSep(u, ',');
  }

  /** The text "bad" is malformed: both components are absent. */
  lemma BadParsesToNothing(num: string -> Option<real>)
    ensures ParseLatLon(Text("bad"), num) == (None, None)
  {
    NoCommaNeverParses("bad", num);
  }
}
