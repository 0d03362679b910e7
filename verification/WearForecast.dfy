/** The wear forecast (`fit_forecast`): a least-squares line through a counter's
    daily values and the date it reaches the target; and `unchanged_since`. */
module WearForecast {
  import opened Prelude

  const MIN_POINTS: nat := 14
  const FIT_DAYS: nat := 90
  const DAY_S: real := 86_400.0

  datatype Counter = Number(v: real) | NotANumber

  datatype Row = Row(day: int, counters: map<string, Counter>)

  datatype Point = Point(day: real, value: real)

  /** The forecast before rounding; the span in whole days is left out. */
  datatype Forecast = Forecast(slope: real, intercept: real, base: real, target: real,
                               reachesAt: Option<real>, points: nat, latest: real, rising: bool)

  function Tail<T>(s: seq<T>, n: nat): seq<T> {
    if |s| <= n then s else s[|s| - n..]
  }

  /** The days on which the counter was a number, oldest first. */
  function Points(rows: seq<Row>, key: string): seq<Point> {
    if rows == [] then [] else
    var r := rows[|rows| - 1];
    Points(rows[..|rows| - 1], key)
    + if key in r.counters && r.counters[key].Number? then [Point(r.day as real, r.counters[key].v)] else []
  }

  // ------------------------------------------------------------------ vectors

  function Sum(us: seq<real>): real {
    if us == [] then 0.0 else Sum(us[..|us| - 1]) + us[|us| - 1]
  }

  function Dev(us: seq<real>, m: real): (r: seq<real>)
    ensures |r| == |us|
  {
    seq(|us|, i requires 0 <= i < |us| => us[i] - m)
  }

  function Prod(us: seq<real>, vs: seq<real>): (r: seq<real>)
    requires |us| == |vs|
    ensures |r| == |us|
  {
    seq(|us|, i requires 0 <= i < |us| => us[i] * vs[i])
  }

  function Mean(us: seq<real>): real
    requires us != []
  {
    Sum(us) / |us| as real
  }

  /** Sum of products of deviations from the means. */
  function Spread(us: seq<real>, vs: seq<real>): real
    requires |us| == |vs| && us != []
  {
    Sum(Prod(Dev(us, Mean(us)), Dev(vs, Mean(vs))))
  }

  // ----------------------------------------------------------------- the fit

  function DaysSince(ps: seq<Point>, base: real): seq<real> {
    seq(|ps|, i requires 0 <= i < |ps| => (ps[i].day - base) / DAY_S)
  }

  function Values(ps: seq<Point>): seq<real> {
    seq(|ps|, i requires 0 <= i < |ps| => ps[i].value)
  }

  function Slope(xs: seq<real>, ys: seq<real>): real
    requires |xs| == |ys| && xs != [] && Spread(xs, xs) > 0.0
  {
    Spread(xs, ys) / Spread(xs, xs)
  }

  function Intercept(xs: seq<real>, ys: seq<real>): real
    requires |xs| == |ys| && xs != [] && Spread(xs, xs) > 0.0
  {
    Mean(ys) - Slope(xs, ys) * Mean(xs)
  }

  /** `fit_forecast`. */
  function FitForecast(rows: seq<Row>, key: string, target: real): (f: Option<Forecast>) {
    var ps := Points(Tail(rows, FIT_DAYS), key);
    if |ps| < MIN_POINTS then None else
    var base := ps[0].day;
    var xs, ys := DaysSince(ps, base), Values(ps);
    if Spread(xs, xs) <= 0.0 then None else
    var slope, intercept := Slope(xs, ys), Intercept(xs, ys);
    var last := ps[|ps| - 1];
    Some(Forecast(slope, intercept, base, target,
                  ReachesAt(slope, intercept, base, last, target), |ps|, last.value, slope > 0.000000001))
  }

  /** The date named for the crossing, if any. */
  function ReachesAt(slope: real, intercept: real, base: real, last: Point, target: real): Option<real> {
    if slope <= 0.000000001 || last.value >= target then None else
    match DaysToTarget(slope, intercept, (last.day - base) / DAY_S, target)
    case Some(days) => Some(last.day + days * DAY_S)
    case None => None
  }

  /** Days from the last point to the crossing, when within ten years of it. */
  function DaysToTarget(slope: real, intercept: real, latestX: real, target: real): Option<real>
    requires slope > 0.0
  {
    var days := (target - (intercept + slope * latestX)) / slope;
    if 0.0 < days < 3650.0 then Some(days) else None
  }

  // ------------------------------------------------------------- linear sums

  ghost function Add(us: seq<real>, vs: seq<real>): (r: seq<real>)
    requires |us| == |vs|
    ensures |r| == |us|
  {
    seq(|us|, i requires 0 <= i < |us| => us[i] + vs[i])
  }

  ghost function Scale(c: real, us: seq<real>): (r: seq<real>)
    ensures |r| == |us|
  {
    seq(|us|, i requires 0 <= i < |us| => c * us[i])
  }

  lemma Distribute(c: real, s: real, u: real)
    ensures c * (s + u) == c * s + c * u
  {
  }

  lemma {:induction false} SumAdd(us: seq<real>, vs: seq<real>)
    requires |us| == |vs|
    ensures Sum(Add(us, vs)) == Sum(us) + Sum(vs)
  {
    if us == [] {
    } else {
      var k := |us| - 1;
      SumAdd(us[..k], vs[..k]);
      assert Add(us, vs)[..k] == Add(us[..k], vs[..k]);
    }
  }

  lemma {:induction false} SumScale(c: real, us: seq<real>)
    ensures Sum(Scale(c, us)) == c * Sum(us)
  {
    if us == [] {
    } else {
      var k := |us| - 1;
      SumScale(c, us[..k]);
      forall i | 0 <= i < k ensures Scale(c, us)[..k][i] == Scale(c, us[..k])[i] {
        var u := us[i];
        assert us[..k][i] == u && Scale(c, us)[i] == c * u && Scale(c, us[..k])[i] == c * u;
      }
      assert Scale(c, us)[..k] == Scale(c, us[..k]);
      Distribute(c, Sum(us[..k]), us[k]);
    }
  }

  lemma {:induction false} SumNonnegative(us: seq<real>)
    requires forall i :: 0 <= i < |us| ==> us[i] >= 0.0
    ensures Sum(us) >= 0.0
    ensures Sum(us) == 0.0 ==> forall i :: 0 <= i < |us| ==> us[i] == 0.0
  {
    if us == [] {
    } else {
      var init := us[..|us| - 1];
      SumNonnegative(init);
      assert forall i :: 0 <= i < |init| ==> init[i] == us[i];
    }
  }

  lemma {:induction false} SumOfDeviations(us: seq<real>, m: real)
    ensures Sum(Dev(us, m)) == Sum(us) - |us| as real * m
  {
    if us == [] {
    } else {
      SumOfDeviations(us[..|us| - 1], m);
      assert Dev(us, m)[..|us| - 1] == Dev(us[..|us| - 1], m);
    }
  }

  lemma DeviationsCancel(us: seq<real>)
    requires us != []
    ensures Sum(Dev(us, Mean(us))) == 0.0
  {
    SumOfDeviations(us, Mean(us));
  }

  lemma Positive(x: real, y: real, p: real)
    requires x > 0.0 && y > 0.0 && p == x * y
    ensures p > 0.0
  {
  }

  lemma Square(d: real, p: real)
    requires p == d * d
    ensures p >= 0.0
    ensures d != 0.0 ==> p > 0.0
  {
    if d > 0.0 {
      Positive(d, d, p);
    } else if d < 0.0 {
      Positive(-d, -d, p);
    }
  }

  lemma SquareAt(us: seq<real>, i: nat)
    requires i < |us|
    ensures Prod(us, us)[i] >= 0.0
    ensures us[i] != 0.0 ==> Prod(us, us)[i] > 0.0
  {
    Square(us[i], Prod(us, us)[i]);
  }

  lemma SquaresNonnegative(us: seq<real>)
    ensures forall i :: 0 <= i < |us| ==> Prod(us, us)[i] >= 0.0
    ensures forall i :: 0 <= i < |us| && us[i] != 0.0 ==> Prod(us, us)[i] > 0.0
  {
    forall i | 0 <= i < |us|
      ensures Prod(us, us)[i] >= 0.0 && (us[i] != 0.0 ==> Prod(us, us)[i] > 0.0)
    {
      SquareAt(us, i);
    }
  }

  // ----------------------------------------------------------- least squares

  /** The residuals of the line a + b x. */
  ghost function Errors(xs: seq<real>, ys: seq<real>, a: real, b: real): (r: seq<real>)
    requires |xs| == |ys|
    ensures |r| == |xs|
  {
    seq(|xs|, i requires 0 <= i < |xs| => ys[i] - (a + b * xs[i]))
  }

  ghost function Residuals(xs: seq<real>, ys: seq<real>, a: real, b: real): real
    requires |xs| == |ys|
  {
    Sum(Prod(Errors(xs, ys, a, b), Errors(xs, ys, a, b)))
  }

  ghost function Line(xs: seq<real>, d0: real, d1: real): (r: seq<real>)
    ensures |r| == |xs|
  {
    seq(|xs|, i requires 0 <= i < |xs| => d0 + d1 * xs[i])
  }

  lemma FitError(y: real, x: real, i: real, slope: real, c: real, mx: real, my: real)
    requires i == my - slope * mx && c == -slope
    ensures y - (i + slope * x) == (y - my) + c * (x - mx)
  {
  }

  lemma LineErrors(xs: seq<real>, ys: seq<real>, i: real, slope: real, c: real, mx: real, my: real)
    requires |xs| == |ys| && i == my - slope * mx && c == -slope
    ensures Errors(xs, ys, i, slope) == Add(Dev(ys, my), Scale(c, Dev(xs, mx)))
  {
    forall k | 0 <= k < |xs|
      ensures Errors(xs, ys, i, slope)[k] == Add(Dev(ys, my), Scale(c, Dev(xs, mx)))[k]
    {
      FitError(ys[k], xs[k], i, slope, c, mx, my);
    }
  }

  /** The fitted residuals, from the deviations. */
  lemma FitErrors(xs: seq<real>, ys: seq<real>)
    requires |xs| == |ys| && xs != [] && Spread(xs, xs) > 0.0
    ensures Errors(xs, ys, Intercept(xs, ys), Slope(xs, ys)) ==
            Add(Dev(ys, Mean(ys)), Scale(-Slope(xs, ys), Dev(xs, Mean(xs))))
  {
    LineErrors(xs, ys, Intercept(xs, ys), Slope(xs, ys), -Slope(xs, ys), Mean(xs), Mean(ys));
  }

  /** First normal equation: the fitted residuals sum to zero. */
  lemma ResidualsCancel(xs: seq<real>, ys: seq<real>)
    requires |xs| == |ys| && xs != [] && Spread(xs, xs) > 0.0
    ensures Sum(Errors(xs, ys, Intercept(xs, ys), Slope(xs, ys))) == 0.0
  {
    FitErrors(xs, ys);
    SumScale(-Slope(xs, ys), Dev(xs, Mean(xs)));
    SumAdd(Dev(ys, Mean(ys)), Scale(-Slope(xs, ys), Dev(xs, Mean(xs))));
    DeviationsCancel(xs);
    DeviationsCancel(ys);
  }

  lemma ProdOfSum(vs: seq<real>, c: real, us: seq<real>)
    requires |us| == |vs|
    ensures Prod(Add(vs, Scale(c, us)), us) == Add(Prod(us, vs), Scale(c, Prod(us, us)))
  {
    forall i | 0 <= i < |us|
      ensures Prod(Add(vs, Scale(c, us)), us)[i] == Add(Prod(us, vs), Scale(c, Prod(us, us)))[i]
    {
      var u, v := us[i], vs[i];
      assert (v + c * u) * u == u * v + c * (u * u);
      assert Add(vs, Scale(c, us))[i] == v + c * u;
      assert Scale(c, Prod(us, us))[i] == c * (u * u);
    }
  }

  /** Second normal equation, about the mean: they do not lean either way. */
  lemma ResidualsUncorrelated(xs: seq<real>, ys: seq<real>)
    requires |xs| == |ys| && xs != [] && Spread(xs, xs) > 0.0
    ensures Sum(Prod(Errors(xs, ys, Intercept(xs, ys), Slope(xs, ys)), Dev(xs, Mean(xs)))) == 0.0
  {
    var us, vs, c := Dev(xs, Mean(xs)), Dev(ys, Mean(ys)), -Slope(xs, ys);
    FitErrors(xs, ys);
    ProdOfSum(vs, c, us);
    var squares := Prod(us, us);
    SumScale(c, squares);
    SumAdd(Prod(us, vs), Scale(c, squares));
    SlopeTimesSpread(Spread(xs, ys), Spread(xs, xs));
  }

  lemma SlopeTimesSpread(suv: real, suu: real)
    requires suu > 0.0
    ensures suv + (-(suv / suu)) * suu == 0.0
  {
  }

  lemma ShiftSquare(e: real, u: real, d0: real, d1: real, d: real)
    requires d == d0 + d1 * u
    ensures (e + d) * (e + d) == (e * e + ((2.0 * d0) * e + (2.0 * d1) * (e * u))) + d * d
  {
    assert (e + d) * (e + d) == e * e + 2.0 * (e * d) + d * d;
    assert e * d == d0 * e + d1 * (e * u);
  }

  lemma SquaresOfShift(es: seq<real>, us: seq<real>, d0: real, d1: real)
    requires |es| == |us|
    ensures var ds := Line(us, d0, d1);
            Prod(Add(es, ds), Add(es, ds)) ==
            Add(Add(Prod(es, es), Add(Scale(2.0 * d0, es), Scale(2.0 * d1, Prod(es, us)))), Prod(ds, ds))
  {
    var ds := Line(us, d0, d1);
    var c0, c1, eu := 2.0 * d0, 2.0 * d1, Prod(es, us);
    forall i | 0 <= i < |es|
      ensures Prod(Add(es, ds), Add(es, ds))[i] ==
              Add(Add(Prod(es, es), Add(Scale(c0, es), Scale(c1, eu))), Prod(ds, ds))[i]
    {
      var e, u, d := es[i], us[i], ds[i];
      ShiftSquare(e, u, d0, d1, d);
      assert Add(es, ds)[i] == e + d;
      assert Prod(Add(es, ds), Add(es, ds))[i] == (e + d) * (e + d);
      assert eu[i] == e * u;
    }
  }

  /** Any other line is worse by exactly the squared distance between the lines. */
  lemma Pythagoras(xs: seq<real>, ys: seq<real>, d0: real, d1: real)
    requires |xs| == |ys| && xs != [] && Spread(xs, xs) > 0.0
    ensures var ds := Line(Dev(xs, Mean(xs)), d0, d1);
            var es := Errors(xs, ys, Intercept(xs, ys), Slope(xs, ys));
            Sum(Prod(Add(es, ds), Add(es, ds))) == Sum(Prod(es, es)) + Sum(Prod(ds, ds))
  {
    var us := Dev(xs, Mean(xs));
    var es := Errors(xs, ys, Intercept(xs, ys), Slope(xs, ys));
    var ds := Line(us, d0, d1);
    var p, q := Scale(2.0 * d0, es), Scale(2.0 * d1, Prod(es, us));
    ResidualsCancel(xs, ys);
    ResidualsUncorrelated(xs, ys);
    SumScale(2.0 * d0, es);
    SumScale(2.0 * d1, Prod(es, us));
    SumAdd(p, q);
    SumAdd(Prod(es, es), Add(p, q));
    SquaresOfShift(es, us, d0, d1);
    SumAdd(Add(Prod(es, es), Add(p, q)), Prod(ds, ds));
  }

  lemma OtherLine(y: real, x: real, a: real, b: real, i: real, s: real, m: real, d0: real, d1: real)
    requires d1 == s - b && d0 == i - a + d1 * m
    ensures y - (a + b * x) == (y - (i + s * x)) + (d0 + d1 * (x - m))
  {
    assert b * x == s * x - d1 * x;
    assert d1 * (x - m) == d1 * x - d1 * m;
  }

  /** Another line's errors are this line's, shifted by the difference of the lines. */
  lemma OtherErrors(xs: seq<real>, ys: seq<real>, a: real, b: real, i: real, s: real, m: real, d0: real, d1: real)
    requires |xs| == |ys| && d1 == s - b && d0 == i - a + d1 * m
    ensures Errors(xs, ys, a, b) == Add(Errors(xs, ys, i, s), Line(Dev(xs, m), d0, d1))
  {
    var es, ds := Errors(xs, ys, i, s), Line(Dev(xs, m), d0, d1);
    forall k | 0 <= k < |xs| ensures Errors(xs, ys, a, b)[k] == Add(es, ds)[k] {
      OtherLine(ys[k], xs[k], a, b, i, s, m, d0, d1);
    }
  }

  lemma Shift(xs: seq<real>, ys: seq<real>, a: real, b: real) returns (d0: real, d1: real)
    requires |xs| == |ys| && xs != [] && Spread(xs, xs) > 0.0
    ensures Errors(xs, ys, a, b) ==
            Add(Errors(xs, ys, Intercept(xs, ys), Slope(xs, ys)), Line(Dev(xs, Mean(xs)), d0, d1))
    ensures d0 == 0.0 && d1 == 0.0 ==> a == Intercept(xs, ys) && b == Slope(xs, ys)
  {
    var i, s, m := Intercept(xs, ys), Slope(xs, ys), Mean(xs);
    d1 := s - b;
    d0 := i - a + d1 * m;
    OtherErrors(xs, ys, a, b, i, s, m, d0, d1);
  }

  /** The computed line is the least-squares line, and the only one. */
  lemma LeastSquares(xs: seq<real>, ys: seq<real>, a: real, b: real)
    requires |xs| == |ys| && xs != [] && Spread(xs, xs) > 0.0
    ensures Residuals(xs, ys, Intercept(xs, ys), Slope(xs, ys)) <= Residuals(xs, ys, a, b)
    ensures Residuals(xs, ys, Intercept(xs, ys), Slope(xs, ys)) == Residuals(xs, ys, a, b) ==>
              a == Intercept(xs, ys) && b == Slope(xs, ys)
  {
    var d0, d1 := Shift(xs, ys, a, b);
    var ds := Line(Dev(xs, Mean(xs)), d0, d1);
    Pythagoras(xs, ys, d0, d1);
    SquaresNonnegative(ds);
    SumNonnegative(Prod(ds, ds));
    if Sum(Prod(ds, ds)) == 0.0 {
      ZeroLine(xs, d0, d1);
    }
  }

  /** A line that vanishes at two different abscissae is zero. */
  lemma ZeroLine(xs: seq<real>, d0: real, d1: real)
    requires xs != [] && Spread(xs, xs) > 0.0
    requires forall i :: 0 <= i < |xs| ==> Line(Dev(xs, Mean(xs)), d0, d1)[i] == 0.0
    ensures d0 == 0.0 && d1 == 0.0
  {
    DistinctDays(xs);
    var i, j :| 0 <= i < |xs| && 0 <= j < |xs| && xs[i] != xs[j];
    var u, v := Dev(xs, Mean(xs))[i], Dev(xs, Mean(xs))[j];
    assert Line(Dev(xs, Mean(xs)), d0, d1)[i] == d0 + d1 * u == 0.0;
    assert Line(Dev(xs, Mean(xs)), d0, d1)[j] == d0 + d1 * v == 0.0;
    assert d1 * (u - v) == 0.0 && u != v;
  }

  lemma {:induction false} SumConstant(us: seq<real>, c: real)
    requires forall i :: 0 <= i < |us| ==> us[i] == c
    ensures Sum(us) == |us| as real * c
  {
    if us == [] {
    } else {
      SumConstant(us[..|us| - 1], c);
    }
  }

  /** The denominator is positive exactly when two days differ. */
  lemma DistinctDays(xs: seq<real>)
    requires xs != []
    ensures Spread(xs, xs) >= 0.0
    ensures Spread(xs, xs) > 0.0 <==> exists i, j :: 0 <= i < |xs| && 0 <= j < |xs| && xs[i] != xs[j]
  {
    var us := Dev(xs, Mean(xs));
    SquaresNonnegative(us);
    SumNonnegative(Prod(us, us));
    if forall i, j :: 0 <= i < |xs| && 0 <= j < |xs| ==> xs[i] == xs[j] {
      SumConstant(xs, xs[0]);
      assert Mean(xs) == xs[0];
      assert forall i :: 0 <= i < |us| ==> Prod(us, us)[i] == 0.0;
      SumConstant(Prod(us, us), 0.0);
    } else {
      var i, j :| 0 <= i < |xs| && 0 <= j < |xs| && xs[i] != xs[j];
      assert us[i] != us[j];
      assert Prod(us, us)[i] > 0.0 || Prod(us, us)[j] > 0.0;
    }
  }

  // ------------------------------------------------------------- the forecast

  /** Among the last ninety rows, those in which the counter is a number. */
  ghost function Readings(rows: seq<Row>, key: string): seq<Row> {
    Filter(rows[if |rows| > 90 then |rows| - 90 else 0..], (r: Row) => IsNumber(r, key))
  }

  ghost predicate IsNumber(r: Row, key: string) {
    key in r.counters && r.counters[key].Number?
  }

  ghost function ValueOf(r: Row, key: string): real {
    if IsNumber(r, key) then r.counters[key].v else 0.0
  }

  /** The squares of what the readings miss a line by, added up; the line is a at the day
      `base` and rises by b a day. */
  ghost function Misses(rs: seq<Row>, key: string, base: int, a: real, b: real): real {
    if rs == [] then 0.0 else
    var r := rs[|rs| - 1];
    Misses(rs[..|rs| - 1], key, base, a, b) + Squared(ValueOf(r, key) - (a + b * ((r.day - base) as real / 86_400.0)))
  }

  ghost function Squared(x: real): real {
    x * x
  }

  ghost predicate IsPoint(p: Point, r: Row, key: string) {
    IsNumber(r, key) && p.day == r.day as real && p.value == ValueOf(r, key)
  }

  ghost predicate ArePoints(ps: seq<Point>, rs: seq<Row>, key: string) {
    |ps| == |rs| && forall i :: 0 <= i < |ps| ==> IsPoint(ps[i], rs[i], key)
  }

  lemma {:induction false} PointsOf(rows: seq<Row>, key: string)
    ensures ArePoints(Points(rows, key), Filter(rows, (r: Row) => IsNumber(r, key)), key)
  {
    if rows == [] {
    } else {
      PointsOf(rows[..|rows| - 1], key);
    }
  }

  lemma PointsAreReadings(rows: seq<Row>, key: string)
    ensures ArePoints(Points(Tail(rows, FIT_DAYS), key), Readings(rows, key), key)
  {
    assert Tail(rows, FIT_DAYS) == rows[if |rows| > 90 then |rows| - 90 else 0..];
    PointsOf(Tail(rows, FIT_DAYS), key);
  }

  lemma SquaresSoFar(us: seq<real>, vs: seq<real>, k: nat)
    requires k <= |us| && vs == us[..k]
    ensures Prod(us, us)[..k] == Prod(vs, vs)
  {
    forall i | 0 <= i < k ensures Prod(us, us)[i] == Prod(vs, vs)[i] {
      assert us[i] == vs[i];
    }
  }

  lemma ErrorsSoFar(ps: seq<Point>, base: real, a: real, b: real, k: nat)
    requires k <= |ps|
    ensures Errors(DaysSince(ps, base), Values(ps), a, b)[..k] ==
            Errors(DaysSince(ps[..k], base), Values(ps[..k]), a, b)
  {
    forall i | 0 <= i < k
      ensures Errors(DaysSince(ps, base), Values(ps), a, b)[i] ==
              Errors(DaysSince(ps[..k], base), Values(ps[..k]), a, b)[i]
    {
      assert ps[i] == ps[..k][i];
    }
  }

  lemma {:induction false} MissesAdd(ps: seq<Point>, rs: seq<Row>, key: string, base: int, a: real, b: real)
    requires ArePoints(ps, rs, key)
    ensures Residuals(DaysSince(ps, base as real), Values(ps), a, b) == Misses(rs, key, base, a, b)
  {
    if ps == [] {
    } else {
      var k := |ps| - 1;
      MissesAdd(ps[..k], rs[..k], key, base, a, b);
      var es := Errors(DaysSince(ps, base as real), Values(ps), a, b);
      ErrorsSoFar(ps, base as real, a, b, k);
      SquaresSoFar(es, Errors(DaysSince(ps[..k], base as real), Values(ps[..k]), a, b), k);
      assert IsPoint(ps[k], rs[k], key);
      assert es[k] == ValueOf(rs[k], key) - (a + b * ((rs[k].day - base) as real / 86_400.0));
    }
  }

  /** When there is a forecast at all, that its line is the one that misses the readings
      least, and what it says of them. */
  lemma ForecastMeaning(rows: seq<Row>, key: string, target: real, a: real, b: real)
    ensures var rs := Readings(rows, key);
            var f := FitForecast(rows, key, target);
            (f.Some? <==> |rs| >= 14 && exists i, j :: 0 <= i < |rs| && 0 <= j < |rs| && rs[i].day != rs[j].day) &&
            (f.Some? ==>
               Misses(rs, key, rs[0].day, f.value.intercept, f.value.slope) <= Misses(rs, key, rs[0].day, a, b) &&
               (Misses(rs, key, rs[0].day, f.value.intercept, f.value.slope) == Misses(rs, key, rs[0].day, a, b) ==>
                  a == f.value.intercept && b == f.value.slope) &&
               f.value.base == rs[0].day as real && f.value.target == target && f.value.points == |rs| &&
               f.value.latest == ValueOf(rs[|rs| - 1], key) &&
               (f.value.rising <==> f.value.slope > 0.000000001))
  {
    var ps, rs := Points(Tail(rows, FIT_DAYS), key), Readings(rows, key);
    PointsAreReadings(rows, key);
    assert forall i :: 0 <= i < |ps| ==> IsPoint(ps[i], rs[i], key);
    if |ps| >= MIN_POINTS {
      var xs, ys := DaysSince(ps, ps[0].day), Values(ps);
      DaysDiffer(ps, rs, key);
      if Spread(xs, xs) > 0.0 {
        LeastSquares(xs, ys, a, b);
        MissesAdd(ps, rs, key, rs[0].day, a, b);
        MissesAdd(ps, rs, key, rs[0].day, Intercept(xs, ys), Slope(xs, ys));
      }
    }
  }

  lemma DaysDiffer(ps: seq<Point>, rs: seq<Row>, key: string)
    requires ArePoints(ps, rs, key) && ps != []
    ensures var xs := DaysSince(ps, ps[0].day);
            Spread(xs, xs) > 0.0 <==> exists i, j :: 0 <= i < |rs| && 0 <= j < |rs| && rs[i].day != rs[j].day
  {
    var xs := DaysSince(ps, ps[0].day);
    DistinctDays(xs);
    assert forall i :: 0 <= i < |ps| ==> IsPoint(ps[i], rs[i], key);
    if i, j :| 0 <= i < |xs| && 0 <= j < |xs| && xs[i] != xs[j] {
      assert rs[i].day != rs[j].day;
    }
    if i, j :| 0 <= i < |rs| && 0 <= j < |rs| && rs[i].day != rs[j].day {
      assert xs[i] != xs[j];
    }
  }

  /** The fitted line as a function of the date. */
  ghost function LineAt(f: Forecast, day: real): real {
    f.intercept + f.slope * ((day - f.base) / 86_400.0)
  }

  lemma QuotientSign(gap: real, s: real, days: real)
    requires s > 0.0 && days * s == gap
    ensures days > 0.0 <==> gap > 0.0
  {
    if days > 0.0 {
      Positive(days, s, gap);
    } else if days < 0.0 {
      Positive(-days, s, -gap);
    }
  }

  /** The crossing is named exactly when the line is below the target now and above it
      ten years on, and the line meets the target exactly then. */
  lemma CrossingExact(slope: real, intercept: real, x: real, target: real)
    requires slope > 0.0
    ensures var days := DaysToTarget(slope, intercept, x, target);
            (days.Some? <==> intercept + slope * x < target < intercept + slope * x + slope * 3650.0) &&
            (days.Some? ==> intercept + slope * (x + days.value) == target && 0.0 < days.value < 3650.0)
  {
    var now := intercept + slope * x;
    var days := (target - now) / slope;
    assert days * slope == target - now;
    QuotientSign(target - now, slope, days);
    assert (3650.0 - days) * slope == slope * 3650.0 - days * slope;
    QuotientSign(slope * 3650.0 - (target - now), slope, 3650.0 - days);
    assert slope * (x + days) == slope * x + days * slope;
  }

  /** A date is named exactly when the series rises, has not reached the target by its
      last value, and its line still lies below the target on the last day but meets it
      within ten years; the line is then at the target exactly on that date. */
  lemma CrossingMeaning(rows: seq<Row>, key: string, target: real)
    requires FitForecast(rows, key, target).Some?
    ensures var f := FitForecast(rows, key, target).value;
            var rs := Readings(rows, key);
            |rs| >= 14 &&
            var last := rs[|rs| - 1].day as real;
            (f.reachesAt.Some? <==>
               f.slope > 0.000000001 && ValueOf(rs[|rs| - 1], key) < target &&
               LineAt(f, last) < target < LineAt(f, last) + f.slope * 3650.0) &&
            (f.reachesAt.Some? ==>
               LineAt(f, f.reachesAt.value) == target &&
               last < f.reachesAt.value < last + 3650.0 * 86_400.0)
  {
    var f := FitForecast(rows, key, target).value;
    var ps := Points(Tail(rows, FIT_DAYS), key);
    PointsAreReadings(rows, key);
    assert IsPoint(ps[|ps| - 1], Readings(rows, key)[|ps| - 1], key);
    CrossingOfLine(f, ps[|ps| - 1]);
  }

  lemma CrossingOfLine(f: Forecast, last: Point)
    requires f.reachesAt == ReachesAt(f.slope, f.intercept, f.base, last, f.target)
    ensures f.reachesAt.Some? <==>
              f.slope > 0.000000001 && last.value < f.target &&
              LineAt(f, last.day) < f.target < LineAt(f, last.day) + f.slope * 3650.0
    ensures f.reachesAt.Some? ==>
              LineAt(f, f.reachesAt.value) == f.target && last.day < f.reachesAt.value < last.day + 3650.0 * DAY_S
  {
    var x := (last.day - f.base) / DAY_S;
    LineThere(f, last.day, x);
    if f.slope > 0.000000001 {
      CrossingExact(f.slope, f.intercept, x, f.target);
      if f.reachesAt.Some? {
        var days := DaysToTarget(f.slope, f.intercept, x, f.target).value;
        DateOfCrossing(f.base, last.day, days);
        LineThere(f, f.reachesAt.value, x + days);
      }
    }
  }

  lemma LineThere(f: Forecast, day: real, x: real)
    requires (day - f.base) / DAY_S == x
    ensures LineAt(f, day) == f.intercept + f.slope * x
  {
  }

  lemma DateOfCrossing(base: real, last: real, days: real)
    ensures (last + days * DAY_S - base) / DAY_S == (last - base) / DAY_S + days
  {
  }

  // --------------------------------------------------------- unchanged since

  ghost predicate Reads(r: Row, key: string, value: Counter) {
    key in r.counters && r.counters[key] == value
  }

  /** `unchanged_since` for a present value: the first day of the unbroken run of the
      value that ends the record, and whether the run reaches back to the first day. */
  method UnchangedSince(rows: seq<Row>, key: string, value: Counter) returns (day: Option<int>, all: bool)
    ensures day.None? <==> rows == [] || !Reads(rows[|rows| - 1], key, value)
    ensures day.None? ==> !all
    ensures day.Some? ==>
              exists k :: 0 <= k < |rows| && day.value == rows[k].day &&
                (forall i :: k <= i < |rows| ==> Reads(rows[i], key, value)) &&
                (k == 0 || !Reads(rows[k - 1], key, value))
    // With one row per day, `all` is exactly "never anything else on record".
    ensures (forall i, j :: 0 <= i < j < |rows| ==> rows[i].day < rows[j].day) ==>
              (all <==> rows != [] && forall i :: 0 <= i < |rows| ==> Reads(rows[i], key, value))
  {
    day, all := None, false;
    if rows == [] {
      return;
    }
    var k := |rows|;
    while k > 0 && key in rows[k - 1].counters && rows[k - 1].counters[key] == value
      invariant 0 <= k <= |rows|
      invariant forall i :: k <= i < |rows| ==> Reads(rows[i], key, value)
      invariant day == if k == |rows| then None else Some(rows[k].day)
    {
      k := k - 1;
      day := Some(rows[k].day);
    }
    all := day == Some(rows[0].day);
  }
}
