/** What a subject normally does at this hour (`_pct`, `baseline_of`), and the two
    lines it is judged against: the firing line and the recovery line. */
module PulseBaseline {
  import opened Sorting

  // ------------------------------------------------------------ sorted values

  ghost predicate Ascending(s: seq<real>) {
    forall i, j :: 0 <= i < j < |s| ==> s[i] <= s[j]
  }

  predicate NotAbove(x: real, y: real) {
    x <= y
  }

  /** The result of `sorted`: ascending, and the same values. */
  lemma SortSorts(s: seq<real>)
    ensures Ascending(Sort(s, NotAbove)) && multiset(Sort(s, NotAbove)) == multiset(s)
  {
    SortOrdered(s, NotAbove);
    SortBag(s, NotAbove);
    forall i, j | 0 <= i < j < |s| ensures Sort(s, NotAbove)[i] <= Sort(s, NotAbove)[j] {
      OrderedPair(Sort(s, NotAbove), NotAbove, i, j);
    }
  }

  lemma FirstIsLeast(a: seq<real>, v: real)
    requires Ascending(a) && v in multiset(a)
    ensures a != [] && a[0] <= v
  {
    assert v in a;
  }

  lemma Behead(a: seq<real>)
    requires a != []
    ensures a == [a[0]] + a[1..] && a[0] in multiset(a)
    ensures multiset(a) == multiset(a[1..])[a[0] := multiset(a[1..])[a[0]] + 1]
    ensures Ascending(a) ==> Ascending(a[1..])
  {
    assert a == [a[0]] + a[1..];
  }

  lemma SameHead(a: seq<real>, b: seq<real>)
    requires Ascending(a) && Ascending(b) && multiset(a) == multiset(b) && a != []
    ensures b != [] && a[0] == b[0]
  {
    Behead(a);
    FirstIsLeast(b, a[0]);
    Behead(b);
    FirstIsLeast(a, b[0]);
  }

  lemma SameTail(a: seq<real>, b: seq<real>)
    requires multiset(a) == multiset(b) && a != [] && b != [] && a[0] == b[0]
    ensures multiset(a[1..]) == multiset(b[1..])
  {
    var x, s, t := a[0], multiset(a[1..]), multiset(b[1..]);
    Behead(a);
    Behead(b);
    forall v ensures s[v] == t[v] {
      assert s[x := s[x] + 1][v] == t[x := t[x] + 1][v];
    }
  }

  lemma {:induction false} SortedUnique(a: seq<real>, b: seq<real>)
    requires Ascending(a) && Ascending(b) && multiset(a) == multiset(b)
    ensures a == b
  {
    if a == [] {
      assert |multiset(b)| == 0;
    } else {
      SameHead(a, b);
      SameTail(a, b);
      Behead(a);
      Behead(b);
      SortedUnique(a[1..], b[1..]);
    }
  }

  ghost predicate Below(a: seq<real>, b: seq<real>) {
    |a| == |b| && forall i :: 0 <= i < |a| ==> a[i] <= b[i]
  }

  lemma {:induction false} InsertFirst(s: seq<real>)
    requires Ascending(s) && s != []
    ensures Insert(s[0], s[1..], NotAbove) == s
  {
    if |s| == 1 {
    } else {
      InsertFirst(s[1..]);
      assert s == [s[0]] + s[1..] && s[1..] == [s[1]] + s[2..];
    }
  }

  lemma {:induction false} InsertMonotone(x: real, s: seq<real>, y: real, t: seq<real>)
    requires x <= y && Below(s, t) && Ascending(s) && Ascending(t)
    ensures Below(Insert(x, s, NotAbove), Insert(y, t, NotAbove))
    decreases s
  {
    if s == [] {
    } else if x < s[0] && y >= t[0] {
      InsertMonotone(s[0], s[1..], y, t[1..]);
      InsertFirst(s);
    } else if x >= s[0] && y < t[0] {
      InsertMonotone(x, s[1..], t[0], t[1..]);
      InsertFirst(t);
    } else if x >= s[0] {
      InsertMonotone(x, s[1..], y, t[1..]);
    }
  }

  lemma {:induction false} SortMonotone(s: seq<real>, t: seq<real>)
    requires Below(s, t)
    ensures Below(Sort(s, NotAbove), Sort(t, NotAbove))
  {
    if s == [] {
    } else {
      var k := |s| - 1;
      SortMonotone(s[..k], t[..k]);
      SortSorts(s[..k]);
      SortSorts(t[..k]);
      InsertMonotone(s[k], Sort(s[..k], NotAbove), t[k], Sort(t[..k], NotAbove));
    }
  }

  // -------------------------------------------------------------- percentiles

  /** Part of the way from a to b. */
  function Mix(a: real, b: real, f: real): real {
    a + (b - a) * f
  }

  /** The value a (possibly fractional) position along the ordered list. */
  function Interpolate(ordered: seq<real>, pos: real): real
    requires ordered != [] && 0.0 <= pos <= (|ordered| - 1) as real
  {
    var low := pos.Floor;
    var high := if low + 1 < |ordered| - 1 then low + 1 else |ordered| - 1;
    Mix(ordered[low], ordered[high], pos - low as real)
  }

  /** Where quantile q falls along n + 1 ordered values. */
  function Position(n: nat, q: real): (p: real)
    requires 0.0 <= q <= 1.0
    ensures 0.0 <= p <= n as real
  {
    n as real * q
  }

  /** `_pct`, for the quantiles it is asked for. */
  function Pct(values: seq<real>, q: real): real
    requires 0.0 <= q <= 1.0
  {
    if values == [] then 0.0 else PctSorted(Sort(values, NotAbove), q)
  }

  function PctSorted(ordered: seq<real>, q: real): real
    requires ordered != [] && 0.0 <= q <= 1.0
  {
    if |ordered| == 1 then ordered[0] else Interpolate(ordered, Position(|ordered| - 1, q))
  }

  lemma Between(a: real, b: real, f: real)
    requires a <= b && 0.0 <= f <= 1.0
    ensures a <= Mix(a, b, f) <= b
  {
    Product(b - a, f);
    Product(b - a, 1.0 - f);
    assert Mix(a, b, f) == b - (b - a) * (1.0 - f);
  }

  lemma Product(x: real, y: real)
    requires x >= 0.0 && y >= 0.0
    ensures x * y >= 0.0
  {
  }

  /** The interpolated value lies between the two order statistics around it. */
  lemma InterpolateBounds(s: seq<real>, pos: real)
    requires s != [] && Ascending(s) && 0.0 <= pos <= (|s| - 1) as real
    ensures var low := pos.Floor;
            0 <= low < |s| && s[low] <= Interpolate(s, pos) <= s[if low + 1 < |s| then low + 1 else |s| - 1]
  {
    var low := pos.Floor;
    var high := if low + 1 < |s| - 1 then low + 1 else |s| - 1;
    Between(s[low], s[high], pos - low as real);
  }

  lemma PositionMonotone(n: nat, q: real, r: real)
    requires 0.0 <= q <= r <= 1.0
    ensures Position(n, q) <= Position(n, r)
  {
    assert n as real * (r - q) >= 0.0;
  }

  lemma FurtherAlong(a: real, b: real, f: real, g: real)
    requires a <= b && f <= g
    ensures Mix(a, b, f) <= Mix(a, b, g)
  {
    Product(b - a, g - f);
    assert Mix(a, b, g) == Mix(a, b, f) + (b - a) * (g - f);
  }

  lemma SameCell(s: seq<real>, p: real, r: real)
    requires s != [] && Ascending(s) && 0.0 <= p <= r <= (|s| - 1) as real && p.Floor == r.Floor
    ensures Interpolate(s, p) <= Interpolate(s, r)
  {
    var low := p.Floor;
    var high := if low + 1 < |s| - 1 then low + 1 else |s| - 1;
    FurtherAlong(s[low], s[high], p - low as real, r - low as real);
  }

  lemma InterpolateMonotone(s: seq<real>, p: real, r: real)
    requires s != [] && Ascending(s) && 0.0 <= p <= r <= (|s| - 1) as real
    ensures Interpolate(s, p) <= Interpolate(s, r)
  {
    if p.Floor == r.Floor {
      SameCell(s, p, r);
    } else {
      InterpolateBounds(s, p);
      InterpolateBounds(s, r);
    }
  }

  lemma MixMonotone(a: real, b: real, c: real, d: real, f: real)
    requires a <= c && b <= d && 0.0 <= f <= 1.0
    ensures Mix(a, b, f) <= Mix(c, d, f)
  {
    Product(c - a, 1.0 - f);
    Product(d - b, f);
    assert Mix(c, d, f) == Mix(a, b, f) + (c - a) * (1.0 - f) + (d - b) * f;
  }

  lemma InterpolateBelow(s: seq<real>, t: seq<real>, pos: real)
    requires s != [] && Below(s, t) && 0.0 <= pos <= (|s| - 1) as real
    ensures Interpolate(s, pos) <= Interpolate(t, pos)
  {
    var low := pos.Floor;
    var high := if low + 1 < |s| - 1 then low + 1 else |s| - 1;
    MixMonotone(s[low], s[high], t[low], t[high], pos - low as real);
  }

  lemma SortedWithin(values: seq<real>, lo: real, hi: real)
    requires forall i :: 0 <= i < |values| ==> lo <= values[i] <= hi
    ensures forall i :: 0 <= i < |values| ==> lo <= Sort(values, NotAbove)[i] <= hi
  {
    var s := Sort(values, NotAbove);
    SortSorts(values);
    forall i | 0 <= i < |s| ensures lo <= s[i] <= hi {
      assert s[i] in multiset(s);
      assert s[i] in multiset(values);
    }
  }

  lemma PctSortedBounds(s: seq<real>, q: real)
    requires s != [] && Ascending(s) && 0.0 <= q <= 1.0
    ensures s[0] <= PctSorted(s, q) <= s[|s| - 1]
  {
    if |s| > 1 {
      InterpolateBounds(s, Position(|s| - 1, q));
    }
  }

  /** `_pct` lies between any bounds on the data. */
  lemma PctWithin(values: seq<real>, q: real, lo: real, hi: real)
    requires values != [] && 0.0 <= q <= 1.0
    requires forall i :: 0 <= i < |values| ==> lo <= values[i] <= hi
    ensures lo <= Pct(values, q) <= hi
  {
    SortSorts(values);
    SortedWithin(values, lo, hi);
    PctSortedBounds(Sort(values, NotAbove), q);
  }

  /** `_pct` sees the values, not their order. */
  lemma PctPermutation(v: seq<real>, w: seq<real>, q: real)
    requires multiset(v) == multiset(w) && 0.0 <= q <= 1.0
    ensures Pct(v, q) == Pct(w, q)
  {
    SortSorts(v);
    SortSorts(w);
    SortedUnique(Sort(v, NotAbove), Sort(w, NotAbove));
    assert |Sort(v, NotAbove)| == |v| && |Sort(w, NotAbove)| == |w|;
  }

  lemma PctMonotoneInQ(v: seq<real>, q: real, r: real)
    requires 0.0 <= q <= r <= 1.0
    ensures Pct(v, q) <= Pct(v, r)
  {
    SortSorts(v);
    if |v| > 1 {
      PositionMonotone(|v| - 1, q, r);
      InterpolateMonotone(Sort(v, NotAbove), Position(|v| - 1, q), Position(|v| - 1, r));
    }
  }

  lemma PctMonotoneInData(v: seq<real>, w: seq<real>, q: real)
    requires Below(v, w) && 0.0 <= q <= 1.0
    ensures Pct(v, q) <= Pct(w, q)
  {
    SortMonotone(v, w);
    if |v| > 1 {
      InterpolateBelow(Sort(v, NotAbove), Sort(w, NotAbove), Position(|v| - 1, q));
    }
  }

  /** One value is its own every percentile, and no value has 0. */
  lemma PctOfFew(values: seq<real>, q: real)
    requires 0.0 <= q <= 1.0
    ensures values == [] ==> Pct(values, q) == 0.0
    ensures |values| == 1 ==> Pct(values, q) == values[0]
  {
    SortSorts(values);
    if |values| == 1 {
      var ordered := Sort(values, NotAbove);
      assert |ordered| == |multiset(ordered)| == 1;
      assert ordered[0] in multiset(values);
    }
  }

  /** Among n + 1 values the quantile of k steps in n is the k-th value in order (so 0 gives
      the least, 1 the greatest, one half the median), and in between two steps the
      percentile runs along the straight line. */
  lemma PctMeaning(values: seq<real>, ordered: seq<real>, n: nat, q: real, k: nat)
    requires 0.0 <= q <= 1.0 && |values| == n + 1 && k < n && k as real <= n as real * q <= (k + 1) as real
    requires Ascending(ordered) && multiset(ordered) == multiset(values)
    ensures AlongLine(ordered, k, n as real * q, Pct(values, q))
  {
    SortSorts(values);
    SortedUnique(ordered, Sort(values, NotAbove));
    assert |ordered| == |multiset(ordered)| == n + 1;
    var pos := Position(n, q);
    InterpolateBetween(ordered, pos, k);
  }

  /** The value at so many steps, between the k-th and the next. */
  ghost predicate AlongLine(ordered: seq<real>, k: nat, steps: real, value: real) {
    k + 1 < |ordered| && value == ordered[k] * ((k + 1) as real - steps) + ordered[k + 1] * (steps - k as real)
  }

  lemma InterpolateBetween(s: seq<real>, pos: real, k: nat)
    requires k + 1 < |s| && k as real <= pos <= (k + 1) as real
    ensures AlongLine(s, k, pos, Interpolate(s, pos))
  {
    if pos < (k + 1) as real {
      assert pos.Floor == k;
    } else {
      assert pos.Floor == k + 1;
    }
  }

  // ----------------------------------------------------------------- baseline

  const MIN_BUCKET_N: int := 30
  const MAX_WEEKS: nat := 5
  const MIN_WEEKS: nat := 2
  const MAX_DAYS: nat := 35
  const MIN_DAYS: nat := 7
  const ACTIVE_SHARE: real := 0.8
  const RECOVERED_RATIO: real := 0.5

  datatype Kind = Listener | Unit | Machine | Journal

  datatype Metric = Metric(floorA: real, floorB: real, hasB: bool, meaningful: real)

  function MetricOf(kind: Kind): Metric {
    match kind
    case Listener => Metric(1.0, 0.0, false, 5.0)
    case Unit => Metric(0.5, 65_536.0, true, 2.0)
    case Machine => Metric(32_768.0, 32_768.0, true, 131_072.0)
    case Journal => Metric(0.05, 0.0, false, 0.5)
  }

  /** One stored hour of one subject. */
  datatype Hour = Hour(n: int, activeN: int, aSum: real, weekday: int)

  datatype Mode = NoMode | Seasonal | Daily

  datatype Baseline = Baseline(mode: Mode, buckets: nat, median: real, p10: real, p90: real,
                               activeShare: real, usable: bool)

  function Good(rows: seq<Hour>): seq<Hour> {
    if rows == [] then [] else
    Good(rows[..|rows| - 1]) + if rows[|rows| - 1].n >= MIN_BUCKET_N then [rows[|rows| - 1]] else []
  }

  function OnWeekday(rows: seq<Hour>, weekday: int): seq<Hour> {
    if rows == [] then [] else
    OnWeekday(rows[..|rows| - 1], weekday)
    + if rows[|rows| - 1].weekday == weekday then [rows[|rows| - 1]] else []
  }

  function AtMost<T>(s: seq<T>, n: nat): seq<T> {
    if |s| <= n then s else s[..n]
  }

  function MeanOfHour(h: Hour): real {
    h.aSum / (if h.n > 1 then h.n else 1) as real
  }

  function Means(rows: seq<Hour>): seq<real> {
    seq(|rows|, i requires 0 <= i < |rows| =>
      MeanOfHour(rows[i]))
  }

  function Samples(rows: seq<Hour>): int {
    if rows == [] then 0 else Samples(rows[..|rows| - 1]) + rows[|rows| - 1].n
  }

  function ActiveSamples(rows: seq<Hour>): int {
    if rows == [] then 0 else ActiveSamples(rows[..|rows| - 1]) + rows[|rows| - 1].activeN
  }

  function Share(active: int, samples: int): real {
    if samples == 0 then 0.0 else active as real / samples as real
  }

  function BaselineOver(chosen: seq<Hour>, mode: Mode, metric: Metric): Baseline {
    var means := Means(chosen);
    var share := Share(ActiveSamples(chosen), Samples(chosen));
    var median := Pct(means, 0.5);
    Baseline(mode, |chosen|, median, Pct(means, 0.1), Pct(means, 0.9), share,
             !(share < ACTIVE_SHARE) && !(median < metric.meaningful))
  }

  /** `baseline_of`. */
  function BaselineOf(rows: seq<Hour>, metric: Metric, weekday: int): Baseline {
    var good := Good(rows);
    var seasonal := OnWeekday(good, weekday);
    if |seasonal| < MIN_WEEKS && |good| < MIN_DAYS
    then Baseline(NoMode, |good|, 0.0, 0.0, 0.0, 0.0, false)
    else
      var (chosen, mode) := if |seasonal| >= MIN_WEEKS then (AtMost(seasonal, MAX_WEEKS), Seasonal)
                            else (AtMost(good, MAX_DAYS), Daily);
      BaselineOver(chosen, mode, metric)
  }

  /** Below this a subject fires. */
  function FiringLine(metric: Metric, ratio: real, b: Baseline): real {
    if ratio * b.p10 > metric.floorA then ratio * b.p10 else metric.floorA
  }

  /** At or above this it is back. */
  function RecoveryLine(b: Baseline): real {
    RECOVERED_RATIO * b.median
  }

  lemma HalfOrLess(ratio: real, p10: real, median: real)
    requires 0.0 <= ratio <= 0.5 && p10 <= median && median >= 0.0
    ensures ratio * p10 <= RECOVERED_RATIO * median
  {
    Product(ratio, median - p10);
    Product(0.5 - ratio, median);
    assert ratio * p10 == ratio * median - ratio * (median - p10);
    assert ratio * median == 0.5 * median - (0.5 - ratio) * median;
  }

  lemma LinesInOrder(kind: Kind, ratio: real, b: Baseline)
    requires 0.0 <= ratio <= 0.5 && b.p10 <= b.median && b.median >= MetricOf(kind).meaningful
    ensures FiringLine(MetricOf(kind), ratio, b) <= RecoveryLine(b)
  {
    HalfOrLess(ratio, b.p10, b.median);
  }

  /** The percentiles of any baseline are ordered. */
  lemma PercentilesOrdered(rows: seq<Hour>, metric: Metric, weekday: int)
    ensures var b := BaselineOf(rows, metric, weekday); b.p10 <= b.median <= b.p90
  {
    var good := Good(rows);
    var seasonal := OnWeekday(good, weekday);
    var chosen := if |seasonal| >= MIN_WEEKS then AtMost(seasonal, MAX_WEEKS) else AtMost(good, MAX_DAYS);
    PctMonotoneInQ(Means(chosen), 0.1, 0.5);
    PctMonotoneInQ(Means(chosen), 0.5, 0.9);
  }

  /** The hours with enough samples to be evidence. */
  ghost predicate Evidence(h: Hour, rows: seq<Hour>) {
    h in rows && h.n >= MIN_BUCKET_N
  }

  lemma {:induction false} GoodIsEvidence(rows: seq<Hour>)
    ensures forall h :: h in Good(rows) <==> Evidence(h, rows)
  {
    if rows == [] {
    } else {
      var init, last := rows[..|rows| - 1], rows[|rows| - 1];
      GoodIsEvidence(init);
      assert rows == init + [last];
    }
  }

  lemma {:induction false} SameWeekdays(rows: seq<Hour>, weekday: int)
    ensures forall h :: h in OnWeekday(rows, weekday) <==> h in rows && h.weekday == weekday
  {
    if rows == [] {
    } else {
      var init, last := rows[..|rows| - 1], rows[|rows| - 1];
      SameWeekdays(init, weekday);
      assert rows == init + [last];
    }
  }

  /** The hours a baseline of this mode may rest on: of the same weekday when seasonal. */
  ghost predicate Admissible(h: Hour, rows: seq<Hour>, mode: Mode, weekday: int) {
    Evidence(h, rows) && (mode == Seasonal ==> h.weekday == weekday)
  }

  lemma ChosenAdmissible(rows: seq<Hour>, weekday: int)
    ensures forall h :: h in AtMost(OnWeekday(Good(rows), weekday), MAX_WEEKS) ==>
              Admissible(h, rows, Seasonal, weekday)
    ensures forall h :: h in AtMost(Good(rows), MAX_DAYS) ==> Admissible(h, rows, Daily, weekday)
  {
    GoodIsEvidence(rows);
    SameWeekdays(Good(rows), weekday);
  }

  /** The hour may be chosen: enough samples, and of the weekday if one is asked for. */
  ghost predicate Fits(h: Hour, seasonal: bool, weekday: int) {
    h.n >= 30 && (seasonal ==> h.weekday == weekday)
  }

  ghost predicate Rising(picks: seq<nat>, bound: nat) {
    (forall j :: 0 <= j < |picks| ==> picks[j] < bound) &&
    forall i, j :: 0 <= i < j < |picks| ==> picks[i] < picks[j]
  }

  /** Where the first `cap` rows that fit are. */
  ghost predicate Picks(rows: seq<Hour>, picks: seq<nat>, seasonal: bool, weekday: int, cap: nat) {
    && |picks| <= cap && Rising(picks, |rows|)
    && (forall j :: 0 <= j < |picks| ==> Fits(rows[picks[j]], seasonal, weekday))
    && (forall i :: 0 <= i < |rows| && Fits(rows[i], seasonal, weekday) ==> i in picks || Past(picks, cap, i))
  }

  /** The cap was reached before row i. */
  ghost predicate Past(picks: seq<nat>, cap: nat, i: nat) {
    |picks| == cap && forall j :: 0 <= j < |picks| ==> picks[j] < i
  }

  /** The mean of each hour picked. */
  ghost predicate MeansAt(rows: seq<Hour>, picks: seq<nat>, means: seq<real>)
    requires Rising(picks, |rows|)
  {
    |means| == |picks| &&
    forall j :: 0 <= j < |picks| ==> means[j] * rows[picks[j]].n as real == rows[picks[j]].aSum
  }

  ghost function SamplesAt(rows: seq<Hour>, picks: seq<nat>): int
    requires Rising(picks, |rows|)
  {
    if picks == [] then 0 else SamplesAt(rows, picks[..|picks| - 1]) + rows[picks[|picks| - 1]].n
  }

  ghost function ActiveAt(rows: seq<Hour>, picks: seq<nat>): int
    requires Rising(picks, |rows|)
  {
    if picks == [] then 0 else ActiveAt(rows, picks[..|picks| - 1]) + rows[picks[|picks| - 1]].activeN
  }

  ghost predicate MeansTell(b: Baseline, rows: seq<Hour>, picks: seq<nat>, means: seq<real>)
    requires Rising(picks, |rows|)
  {
    && MeansAt(rows, picks, means)
    && b.median == Pct(means, 0.5) && b.p10 == Pct(means, 0.1) && b.p90 == Pct(means, 0.9)
  }

  /** The share of active samples. */
  ghost predicate ShareTells(b: Baseline, active: int, samples: int) {
    b.activeShare * samples as real == active as real
  }

  /** What is said of the hours picked. */
  ghost predicate SaysOf(b: Baseline, rows: seq<Hour>, picks: seq<nat>, metric: Metric) {
    && Rising(picks, |rows|) && b.buckets == |picks|
    && (exists means :: MeansTell(b, rows, picks, means))
    && ShareTells(b, ActiveAt(rows, picks), SamplesAt(rows, picks)) && SamplesAt(rows, picks) > 0
    && (b.usable <==> b.activeShare >= 0.8 && b.median >= metric.meaningful)
  }

  /** All fitting rows up to the n-th. */
  ghost function FitsUpTo(rows: seq<Hour>, n: nat, seasonal: bool, weekday: int): (picks: seq<nat>)
    requires n <= |rows|
    ensures Rising(picks, n)
  {
    if n == 0 then [] else
    var init := FitsUpTo(rows, n - 1, seasonal, weekday);
    RisingAppend(init, n - 1);
    if Fits(rows[n - 1], seasonal, weekday) then init + [n - 1] else init
  }

  lemma RisingAppend(picks: seq<nat>, n: nat)
    requires Rising(picks, n)
    ensures Rising(picks, n + 1) && Rising(picks + [n], n + 1)
  {
  }

  lemma {:induction false} FitsMembers(rows: seq<Hour>, n: nat, seasonal: bool, weekday: int, i: nat)
    requires n <= |rows|
    ensures i in FitsUpTo(rows, n, seasonal, weekday) <==> i < n && Fits(rows[i], seasonal, weekday)
  {
    if n == 0 {
    } else {
      FitsMembers(rows, n - 1, seasonal, weekday, i);
    }
  }

  /** The rows at some places. */
  ghost function Rows(rows: seq<Hour>, picks: seq<nat>): (r: seq<Hour>)
    requires Rising(picks, |rows|)
  {
    seq(|picks|, j requires 0 <= j < |picks| => rows[picks[j]])
  }

  lemma RowsAppend(rows: seq<Hour>, picks: seq<nat>, i: nat)
    requires i < |rows| && Rising(picks, i)
    ensures Rising(picks + [i], |rows|) && Rows(rows, picks + [i]) == Rows(rows, picks) + [rows[i]]
  {
  }

  lemma {:induction false} GoodFits(rows: seq<Hour>, n: nat)
    requires n <= |rows|
    ensures Good(rows[..n]) == Rows(rows, FitsUpTo(rows, n, false, 0))
  {
    if n == 0 {
    } else {
      GoodFits(rows, n - 1);
      assert rows[..n][..n - 1] == rows[..n - 1];
      RowsAppend(rows, FitsUpTo(rows, n - 1, false, 0), n - 1);
    }
  }

  lemma {:induction false} AnyDayFits(rows: seq<Hour>, n: nat, weekday: int)
    requires n <= |rows|
    ensures FitsUpTo(rows, n, false, weekday) == FitsUpTo(rows, n, false, 0)
  {
    if n == 0 {
    } else {
      AnyDayFits(rows, n - 1, weekday);
    }
  }

  lemma GoodStep(rows: seq<Hour>, n: nat)
    requires 0 < n <= |rows|
    ensures var last := rows[n - 1];
            Good(rows[..n]) == if last.n >= 30 then Good(rows[..n - 1]) + [last] else Good(rows[..n - 1])
  {
    assert rows[..n][..n - 1] == rows[..n - 1];
    assert Good(rows[..n - 1]) + [] == Good(rows[..n - 1]);
  }

  lemma {:induction false} SameDayFits(rows: seq<Hour>, n: nat, weekday: int)
    requires n <= |rows|
    ensures OnWeekday(Good(rows[..n]), weekday) == Rows(rows, FitsUpTo(rows, n, true, weekday))
  {
    if n == 0 {
    } else {
      SameDayFits(rows, n - 1, weekday);
      var good, last, picks := Good(rows[..n - 1]), rows[n - 1], FitsUpTo(rows, n - 1, true, weekday);
      GoodStep(rows, n);
      if last.n < 30 {
        assert FitsUpTo(rows, n, true, weekday) == picks;
      } else {
        WeekdayAppend(good, last, weekday);
        if last.weekday == weekday {
          RowsAppend(rows, picks, n - 1);
          assert FitsUpTo(rows, n, true, weekday) == picks + [n - 1];
        } else {
          assert FitsUpTo(rows, n, true, weekday) == picks;
        }
      }
    }
  }

  lemma WeekdayAppend(rows: seq<Hour>, h: Hour, weekday: int)
    ensures OnWeekday(rows + [h], weekday) ==
            if h.weekday == weekday then OnWeekday(rows, weekday) + [h] else OnWeekday(rows, weekday)
  {
    assert (rows + [h])[..|rows|] == rows;
    assert OnWeekday(rows, weekday) + [] == OnWeekday(rows, weekday);
  }

  lemma Cut(all: seq<nat>, bound: nat, cap: nat)
    requires Rising(all, bound)
    ensures Rising(AtMost(all, cap), bound)
    ensures forall i :: i in all ==> i in AtMost(all, cap) || Past(AtMost(all, cap), cap, i)
  {
    var picks := AtMost(all, cap);
    forall i | i in all ensures i in picks || Past(picks, cap, i) {
      var at :| 0 <= at < |all| && all[at] == i;
      if at < |picks| {
        assert picks[at] == i;
      }
    }
  }

  lemma FirstPicks(rows: seq<Hour>, seasonal: bool, weekday: int, cap: nat) returns (picks: seq<nat>)
    ensures Picks(rows, picks, seasonal, weekday, cap)
    ensures picks == AtMost(FitsUpTo(rows, |rows|, seasonal, weekday), cap)
  {
    var all := FitsUpTo(rows, |rows|, seasonal, weekday);
    picks := AtMost(all, cap);
    Cut(all, |rows|, cap);
    forall j | 0 <= j < |picks| ensures Fits(rows[picks[j]], seasonal, weekday) {
      assert picks[j] in all;
      FitsMembers(rows, |rows|, seasonal, weekday, picks[j]);
    }
    forall i | 0 <= i < |rows| && Fits(rows[i], seasonal, weekday) ensures i in picks || Past(picks, cap, i) {
      FitsMembers(rows, |rows|, seasonal, weekday, i);
    }
  }

  lemma RowsCut(rows: seq<Hour>, all: seq<nat>, cap: nat)
    requires Rising(all, |rows|) && Rising(AtMost(all, cap), |rows|)
    ensures Rows(rows, AtMost(all, cap)) == AtMost(Rows(rows, all), cap)
  {
  }

  lemma {:induction false} SumsOf(rows: seq<Hour>, picks: seq<nat>)
    requires Rising(picks, |rows|)
    ensures Samples(Rows(rows, picks)) == SamplesAt(rows, picks)
    ensures ActiveSamples(Rows(rows, picks)) == ActiveAt(rows, picks)
  {
    if picks == [] {
    } else {
      var init := picks[..|picks| - 1];
      SumsOf(rows, init);
      assert Rows(rows, picks)[..|init|] == Rows(rows, init);
    }
  }

  lemma {:induction false} SamplesPositive(hs: seq<Hour>)
    requires forall h :: h in hs ==> h.n >= 30
    ensures Samples(hs) >= |hs|
  {
    if hs == [] {
    } else {
      SamplesPositive(hs[..|hs| - 1]);
    }
  }

  lemma ShareThere(b: Baseline, active: int, samples: int)
    requires samples > 0 && b.activeShare == Share(active, samples)
    ensures ShareTells(b, active, samples)
  {
    Quotient(active as real, samples as real, b.activeShare);
  }

  lemma Quotient(a: real, b: real, q: real)
    requires b != 0.0 && q == a / b
    ensures q * b == a
  {
  }

  lemma MeansThere(rows: seq<Hour>, picks: seq<nat>)
    requires Rising(picks, |rows|) && forall j :: 0 <= j < |picks| ==> rows[picks[j]].n >= 30
    ensures MeansAt(rows, picks, Means(Rows(rows, picks)))
  {
    var means := Means(Rows(rows, picks));
    forall j | 0 <= j < |picks| ensures means[j] * rows[picks[j]].n as real == rows[picks[j]].aSum {
      assert means[j] == MeanOfHour(rows[picks[j]]);
      MeanTimes(rows[picks[j]]);
    }
  }

  lemma MeanTimes(h: Hour)
    requires h.n > 0
    ensures MeanOfHour(h) * h.n as real == h.aSum
  {
  }

  lemma ChosenSays(rows: seq<Hour>, metric: Metric, mode: Mode, picks: seq<nat>)
    requires Rising(picks, |rows|) && picks != []
    requires forall j :: 0 <= j < |picks| ==> rows[picks[j]].n >= 30
    ensures SaysOf(BaselineOver(Rows(rows, picks), mode, metric), rows, picks, metric)
  {
    var chosen := Rows(rows, picks);
    var b := BaselineOver(chosen, mode, metric);
    var active, samples := ActiveAt(rows, picks), SamplesAt(rows, picks);
    SumsOf(rows, picks);
    SamplesPositive(chosen);
    assert samples > 0;
    assert b.activeShare == Share(active, samples);
    ShareThere(b, active, samples);
    MeansThere(rows, picks);
    assert MeansTell(b, rows, picks, Means(chosen));
  }

  lemma Choices(rows: seq<Hour>, weekday: int) returns (same: seq<nat>, any: seq<nat>)
    ensures Picks(rows, same, true, weekday, 5) && Picks(rows, any, false, weekday, 35)
    ensures Rows(rows, same) == AtMost(OnWeekday(Good(rows), weekday), MAX_WEEKS)
    ensures Rows(rows, any) == AtMost(Good(rows), MAX_DAYS)
  {
    same := FirstPicks(rows, true, weekday, 5);
    any := FirstPicks(rows, false, weekday, 35);
    assert rows[..|rows|] == rows;
    GoodFits(rows, |rows|);
    AnyDayFits(rows, |rows|, weekday);
    SameDayFits(rows, |rows|, weekday);
    RowsCut(rows, FitsUpTo(rows, |rows|, true, weekday), MAX_WEEKS);
    RowsCut(rows, FitsUpTo(rows, |rows|, false, weekday), MAX_DAYS);
  }

  /** What a baseline is: the first five hours of the same weekday, if there are two with
      enough samples; else the first thirty-five of any day, if there are seven; else
      nothing is claimed.  It is told by the means of those hours and their active share. */
  lemma BaselineMeaning(rows: seq<Hour>, metric: Metric, weekday: int) returns (same: seq<nat>, any: seq<nat>)
    ensures Picks(rows, same, true, weekday, 5) && Picks(rows, any, false, weekday, 35)
    ensures var b := BaselineOf(rows, metric, weekday);
            && (b.mode == Seasonal <==> |same| >= 2)
            && (b.mode == Daily <==> |same| < 2 && |any| >= 7)
            && (b.mode == Seasonal ==> SaysOf(b, rows, same, metric))
            && (b.mode == Daily ==> SaysOf(b, rows, any, metric))
            && (b.mode == NoMode ==> !b.usable && b.median == b.p10 == b.p90 == 0.0)
  {
    same, any := Choices(rows, weekday);
    assert |Rows(rows, same)| == |same| && |Rows(rows, any)| == |any|;
    if |same| >= 2 {
      ChosenSays(rows, metric, Seasonal, same);
    } else if |any| >= 7 {
      ChosenSays(rows, metric, Daily, any);
    }
  }

  /** A baseline is made of evidence only, of the same weekday alone when it is seasonal,
      from at least two weeks or seven days and at most five or thirty-five; its
      percentiles lie within what those hours did. */
  lemma BaselineFromEvidence(rows: seq<Hour>, metric: Metric, weekday: int, lo: real, hi: real)
    requires forall h :: Admissible(h, rows, BaselineOf(rows, metric, weekday).mode, weekday) ==>
                           lo <= MeanOfHour(h) <= hi
    ensures var b := BaselineOf(rows, metric, weekday);
            (b.mode == Seasonal ==> MIN_WEEKS <= b.buckets <= MAX_WEEKS) &&
            (b.mode == Daily ==> MIN_DAYS <= b.buckets <= MAX_DAYS) &&
            (b.mode != NoMode ==> lo <= b.p10 && b.p90 <= hi) &&
            (b.usable ==> b.mode != NoMode && b.activeShare >= ACTIVE_SHARE && b.median >= metric.meaningful)
  {
    var good := Good(rows);
    var seasonal := OnWeekday(good, weekday);
    ChosenAdmissible(rows, weekday);
    if |seasonal| >= MIN_WEEKS {
      ChosenBounds(AtMost(seasonal, MAX_WEEKS), lo, hi);
    } else if |good| >= MIN_DAYS {
      ChosenBounds(AtMost(good, MAX_DAYS), lo, hi);
    }
  }

  lemma ChosenBounds(chosen: seq<Hour>, lo: real, hi: real)
    requires chosen != [] && forall h :: h in chosen ==> lo <= MeanOfHour(h) <= hi
    ensures lo <= Pct(Means(chosen), 0.1) && Pct(Means(chosen), 0.9) <= hi
  {
    forall i | 0 <= i < |chosen| ensures lo <= Means(chosen)[i] <= hi {
      assert chosen[i] in chosen && Means(chosen)[i] == MeanOfHour(chosen[i]);
    }
    PctWithin(Means(chosen), 0.1, lo, hi);
    PctWithin(Means(chosen), 0.9, lo, hi);
  }

  ghost predicate FiresBelowRecovery(kind: Kind, ratio: real, rows: seq<Hour>, weekday: int) {
    var b := BaselineOf(rows, MetricOf(kind), weekday);
    b.usable ==> FiringLine(MetricOf(kind), ratio, b) <= RecoveryLine(b)
  }

  lemma QuietRatioSafe(kind: Kind, ratio: real, rows: seq<Hour>, weekday: int)
    requires 0.0 <= ratio <= 0.5
    ensures FiresBelowRecovery(kind, ratio, rows, weekday)
  {
    var b := BaselineOf(rows, MetricOf(kind), weekday);
    if b.usable {
      PercentilesOrdered(rows, MetricOf(kind), weekday);
      LinesInOrder(kind, ratio, b);
    }
  }

  /** Two identical, fully active hours with this mean. */
  function Steady(mean: real): seq<Hour> {
    [Hour(30, 30, mean * 30.0, 0), Hour(30, 30, mean * 30.0, 0)]
  }

  lemma SteadySums(mean: real)
    ensures Samples(Steady(mean)) == 60 && ActiveSamples(Steady(mean)) == 60
  {
    var h := Steady(mean)[0];
    assert Steady(mean)[..1] == [h] && [h][..0] == [];
    assert Samples([h]) == 30 && ActiveSamples([h]) == 30;
  }

  lemma SteadyBaseline(mean: real, metric: Metric)
    ensures var b := BaselineOf(Steady(mean), metric, 0);
            b.median == mean && b.p10 == mean && (b.usable <==> mean >= metric.meaningful)
  {
    var rows := Steady(mean);
    var h := rows[0];
    assert rows[..1] == [h] && [h][..0] == [];
    assert Good([h]) == [h] && Good(rows) == rows;
    assert OnWeekday([h], 0) == [h] && OnWeekday(rows, 0) == rows;
    SteadySums(mean);
    assert Means(rows) == [mean, mean];
    PctWithin([mean, mean], 0.5, mean, mean);
    PctWithin([mean, mean], 0.1, mean, mean);
  }

  lemma SteepRatioFails(kind: Kind, ratio: real)
    requires ratio > 0.5
    ensures !FiresBelowRecovery(kind, ratio, Steady(MetricOf(kind).meaningful), 0)
  {
    SteadyBaseline(MetricOf(kind).meaningful, MetricOf(kind));
    LinesCross(MetricOf(kind), ratio, BaselineOf(Steady(MetricOf(kind).meaningful), MetricOf(kind), 0));
  }

  lemma Steeper(ratio: real, low: real, m: real)
    requires ratio > 0.5 && low == m > 0.0
    ensures ratio * low > RECOVERED_RATIO * m
  {
    var d := ratio - 0.5;
    assert d * m > 0.0;
    assert ratio * m == 0.5 * m + d * m;
  }

  lemma LinesCross(metric: Metric, ratio: real, b: Baseline)
    requires ratio > 0.5 && b.p10 == b.median > 0.0
    ensures FiringLine(metric, ratio, b) > RecoveryLine(b)
  {
    Steeper(ratio, b.p10, b.median);
    assert FiringLine(metric, ratio, b) >= ratio * b.p10;
  }

  /** Firing and clearing keep their distance for every usable baseline exactly when
      the quiet ratio is at most one half; the setting itself admits up to 0.9. */
  lemma HysteresisExactly(kind: Kind, ratio: real)
    requires ratio >= 0.0
    ensures (forall rows, weekday :: FiresBelowRecovery(kind, ratio, rows, weekday)) <==> ratio <= 0.5
  {
    if ratio <= 0.5 {
      forall rows, weekday ensures FiresBelowRecovery(kind, ratio, rows, weekday) {
        QuietRatioSafe(kind, ratio, rows, weekday);
      }
    } else {
      SteepRatioFails(kind, ratio);
    }
  }
}
