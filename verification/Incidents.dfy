/** Stored findings folded into incidents (`History.incidents`, `_close_incident`):
    one pass over the rows in (key, ts) order, against the partition of the rows into
    maximal runs. */
module Incidents {
  import opened Prelude
  import opened Sorting

  /** One listed culprit: its name, or something that was not an object. */
  datatype Culprit = Named(name: string) | NotAnObject

  datatype Row = Row(key: string, ts: real, severity: string, title: string, culprits: seq<Culprit>)

  datatype Tally = Tally(buckets: nat, led: nat)

  datatype Open = Open(key: string, start: real, last: real, buckets: nat,
                       severity: string, peakTs: real, title: string, names: map<string, Tally>)

  datatype Incident = Incident(key: string, start: real, end: real, buckets: nat,
                               severity: string, peakTs: real, title: string, names: map<string, Tally>,
                               ongoing: bool)

  // ---------------------------------------------------------- maximal runs

  /** How far apart two rows of one incident may lie. */
  function Gap(bucket: real): real {
    bucket * 2.5
  }

  predicate Linked(a: Row, b: Row, gap: real) {
    a.key == b.key && b.ts - a.ts <= gap
  }

  ghost function Flatten(runs: seq<seq<Row>>): seq<Row> {
    if runs == [] then [] else Flatten(runs[..|runs| - 1]) + runs[|runs| - 1]
  }

  ghost predicate Run(run: seq<Row>, gap: real) {
    run != [] && forall i :: 0 < i < |run| ==> Linked(run[i - 1], run[i], gap)
  }

  /** A partition of the rows, in order, into runs that cannot be joined. */
  ghost predicate MaximalRuns(rows: seq<Row>, gap: real, runs: seq<seq<Row>>) {
    && Flatten(runs) == rows
    && (forall i :: 0 <= i < |runs| ==> Run(runs[i], gap))
    && (forall i :: 0 < i < |runs| ==> !Linked(runs[i - 1][|runs[i - 1]| - 1], runs[i][0], gap))
  }

  ghost function Runs(rows: seq<Row>, gap: real): (runs: seq<seq<Row>>)
    ensures runs == [] <==> rows == []
    ensures forall i :: 0 <= i < |runs| ==> runs[i] != []
  {
    if rows == [] then [] else
    var init, row := rows[..|rows| - 1], rows[|rows| - 1];
    var before := Runs(init, gap);
    if init != [] && Linked(init[|init| - 1], row, gap)
    then before[|before| - 1 := before[|before| - 1] + [row]]
    else before + [[row]]
  }

  lemma FlattenAppend(runs: seq<seq<Row>>, run: seq<Row>)
    ensures Flatten(runs + [run]) == Flatten(runs) + run
  {
    assert (runs + [run])[..|runs|] == runs;
  }

  lemma GrowsRun(init: seq<Row>, row: Row, gap: real, runs: seq<seq<Row>>)
    requires MaximalRuns(init, gap, runs) && init != [] && Linked(init[|init| - 1], row, gap)
    ensures runs != [] && MaximalRuns(init + [row], gap, runs[..|runs| - 1] + [runs[|runs| - 1] + [row]])
  {
    var k := |runs| - 1;
    assert runs == runs[..k] + [runs[k]];
    FlattenAppend(runs[..k], runs[k]);
    assert init[|init| - 1] == runs[k][|runs[k]| - 1];
    FlattenAppend(runs[..k], runs[k] + [row]);
  }

  lemma OpensRun(init: seq<Row>, row: Row, gap: real, runs: seq<seq<Row>>)
    requires MaximalRuns(init, gap, runs) && (init == [] || !Linked(init[|init| - 1], row, gap))
    ensures MaximalRuns(init + [row], gap, runs + [[row]])
  {
    FlattenAppend(runs, [row]);
    if init != [] {
      var k := |runs| - 1;
      assert runs == runs[..k] + [runs[k]];
      FlattenAppend(runs[..k], runs[k]);
      assert init[|init| - 1] == runs[k][|runs[k]| - 1];
    }
  }

  /** One row more, without looking into the runs. */
  lemma RunsStep(init: seq<Row>, row: Row, gap: real)
    ensures var before := Runs(init, gap);
            Runs(init + [row], gap) ==
            if init != [] && Linked(init[|init| - 1], row, gap)
            then before[..|before| - 1] + [before[|before| - 1] + [row]]
            else before + [[row]]
  {
    var rows, before := init + [row], Runs(init, gap);
    assert rows[..|rows| - 1] == init;
    if init != [] {
      var k := |before| - 1;
      assert before[k := before[k] + [row]] == before[..k] + [before[k] + [row]];
    }
  }

  lemma MaximalStep(init: seq<Row>, row: Row, gap: real)
    requires MaximalRuns(init, gap, Runs(init, gap))
    ensures MaximalRuns(init + [row], gap, Runs(init + [row], gap))
  {
    RunsStep(init, row, gap);
    if init != [] && Linked(init[|init| - 1], row, gap) {
      GrowsRun(init, row, gap, Runs(init, gap));
    } else {
      OpensRun(init, row, gap, Runs(init, gap));
    }
  }

  lemma {:induction false} RunsAreMaximal(rows: seq<Row>, gap: real)
    ensures MaximalRuns(rows, gap, Runs(rows, gap))
  {
    if rows == [] {
    } else {
      var init, row := rows[..|rows| - 1], rows[|rows| - 1];
      RunsAreMaximal(init, gap);
      MaximalStep(init, row, gap);
      assert rows == init + [row];
    }
  }

  /** A maximal partition without its last row, when that row stood alone. */
  lemma DropAlone(runs: seq<seq<Row>>, row: Row, gap: real, rows: seq<Row>)
    requires MaximalRuns(rows, gap, runs + [[row]])
    ensures rows == Flatten(runs) + [row] && MaximalRuns(Flatten(runs), gap, runs)
    ensures var init := Flatten(runs); init == [] || !Linked(init[|init| - 1], row, gap)
  {
    var all := runs + [[row]];
    FlattenAppend(runs, [row]);
    assert forall i :: 0 <= i < |runs| ==> all[i] == runs[i];
    if runs != [] {
      LastOfFlatten(runs);
      assert !Linked(all[|runs| - 1][|all[|runs| - 1]| - 1], all[|runs|][0], gap);
    }
  }

  /** And when it did not. */
  lemma DropLast(runs: seq<seq<Row>>, r: seq<Row>, row: Row, gap: real, rows: seq<Row>)
    requires MaximalRuns(rows, gap, runs + [r + [row]]) && r != []
    ensures rows == Flatten(runs + [r]) + [row] && MaximalRuns(Flatten(runs + [r]), gap, runs + [r])
    ensures Linked(r[|r| - 1], row, gap)
  {
    var all, less := runs + [r + [row]], runs + [r];
    FlattenAppend(runs, r);
    FlattenAppend(runs, r + [row]);
    assert Run(all[|runs|], gap) && all[|runs|] == r + [row];
    assert (r + [row])[|r|] == row && (r + [row])[|r| - 1] == r[|r| - 1];
    ShorterRun(r, row, gap);
    assert forall i :: 0 <= i < |runs| ==> all[i] == less[i];
  }

  lemma ShorterRun(r: seq<Row>, row: Row, gap: real)
    requires Run(r + [row], gap) && r != []
    ensures Run(r, gap)
  {
    assert forall i :: 0 <= i < |r| ==> (r + [row])[i] == r[i];
  }

  lemma AloneUnique(before: seq<seq<Row>>, row: Row, gap: real, rows: seq<Row>)
    requires MaximalRuns(rows, gap, before + [[row]]) && before == Runs(Flatten(before), gap)
    ensures before + [[row]] == Runs(rows, gap)
  {
    DropAlone(before, row, gap, rows);
    RunsStep(Flatten(before), row, gap);
  }

  lemma LongerUnique(before: seq<seq<Row>>, short: seq<Row>, row: Row, gap: real, rows: seq<Row>)
    requires MaximalRuns(rows, gap, before + [short + [row]]) && short != []
    requires before + [short] == Runs(Flatten(before + [short]), gap)
    ensures before + [short + [row]] == Runs(rows, gap)
  {
    var runs := before + [short];
    DropLast(before, short, row, gap, rows);
    LastOfFlatten(runs);
    RunsStep(Flatten(runs), row, gap);
    assert runs[..|runs| - 1] == before && runs[|runs| - 1] == short;
  }

  /** There is only one such partition. */
  lemma {:induction false} MaximalRunsUnique(rows: seq<Row>, gap: real, runs: seq<seq<Row>>)
    requires MaximalRuns(rows, gap, runs)
    ensures runs == Runs(rows, gap)
    decreases |rows|
  {
    if runs == [] {
    } else {
      var k := |runs| - 1;
      var before, r := runs[..k], runs[k];
      var short, row := r[..|r| - 1], r[|r| - 1];
      assert r == short + [row] && runs == before + [r];
      if short == [] {
        DropAlone(before, row, gap, rows);
        MaximalRunsUnique(Flatten(before), gap, before);
        AloneUnique(before, row, gap, rows);
      } else {
        DropLast(before, short, row, gap, rows);
        MaximalRunsUnique(Flatten(before + [short]), gap, before + [short]);
        LongerUnique(before, short, row, gap, rows);
      }
    }
  }

  lemma LastOfFlatten(runs: seq<seq<Row>>)
    requires runs != [] && runs[|runs| - 1] != []
    ensures var rows := Flatten(runs);
            var last := runs[|runs| - 1];
            rows != [] && rows[|rows| - 1] == last[|last| - 1]
  {
  }

  // ------------------------------------------------------- one run, one record

  const TOP: nat := 5

  function Top(cs: seq<Culprit>): (r: seq<Culprit>)
    ensures r <= cs && |r| == if |cs| > 5 then 5 else |cs|
  {
    if |cs| <= TOP then cs else cs[..TOP]
  }

  function AddCulprits(names: map<string, Tally>, cs: seq<Culprit>): map<string, Tally> {
    if cs == [] then names else
    var before := AddCulprits(names, cs[..|cs| - 1]);
    match cs[|cs| - 1]
    case NotAnObject => before
    case Named(n) =>
      var t := if n in before then before[n] else Tally(0, 0);
      before[n := Tally(t.buckets + 1, t.led + if |cs| == 1 then 1 else 0)]
  }

  function Begin(row: Row): Open {
    Open(row.key, row.ts, row.ts, 0, "info", row.ts, row.title, map[])
  }

  function Extend(cur: Open, row: Row): Open {
    var worse := Rank(row.severity) > Rank(cur.severity);
    Open(cur.key, cur.start, row.ts, cur.buckets + 1,
         if worse then row.severity else cur.severity, if worse then row.ts else cur.peakTs,
         row.title, AddCulprits(cur.names, Top(row.culprits)))
  }

  ghost function Summary(run: seq<Row>): Open
    requires run != []
  {
    if |run| == 1 then Extend(Begin(run[0]), run[0]) else Extend(Summary(run[..|run| - 1]), run[|run| - 1])
  }

  /** How often a name is listed in the first five of a bucket, and how often first. */
  ghost function Listed(cs: seq<Culprit>, n: string): nat {
    if cs == [] then 0 else Listed(cs[..|cs| - 1], n) + if cs[|cs| - 1] == Named(n) then 1 else 0
  }

  ghost function ListedIn(run: seq<Row>, n: string): nat {
    if run == [] then 0 else ListedIn(run[..|run| - 1], n) + Listed(Top(run[|run| - 1].culprits), n)
  }

  ghost function LedIn(run: seq<Row>, n: string): nat {
    if run == [] then 0 else
    var cs := run[|run| - 1].culprits;
    LedIn(run[..|run| - 1], n) + if cs != [] && cs[0] == Named(n) then 1 else 0
  }

  function TallyOf(names: map<string, Tally>, n: string): Tally {
    if n in names then names[n] else Tally(0, 0)
  }

  lemma {:induction false} AddCulpritsCounts(names: map<string, Tally>, cs: seq<Culprit>, n: string)
    ensures TallyOf(AddCulprits(names, cs), n).buckets == TallyOf(names, n).buckets + Listed(cs, n)
    ensures TallyOf(AddCulprits(names, cs), n).led ==
            TallyOf(names, n).led + if cs != [] && cs[0] == Named(n) then 1 else 0
  {
    if cs == [] {
    } else {
      AddCulpritsCounts(names, cs[..|cs| - 1], n);
    }
  }

  /** The culprit counts of an incident are counts over its rows. */
  lemma {:induction false} SummaryCounts(run: seq<Row>, n: string)
    requires run != []
    ensures TallyOf(Summary(run).names, n) == Tally(ListedIn(run, n), LedIn(run, n))
  {
    var k := |run| - 1;
    AddCulpritsCounts(if k == 0 then map[] else Summary(run[..k]).names, Top(run[k].culprits), n);
    if k == 0 {
      assert run[..0] == [];
    } else {
      SummaryCounts(run[..k], n);
    }
  }

  lemma {:induction false} SummaryEnds(run: seq<Row>, gap: real)
    requires Run(run, gap)
    ensures var o := Summary(run);
            var last := run[|run| - 1];
            o.key == run[0].key == last.key && o.start == run[0].ts && o.last == last.ts &&
            o.buckets == |run| && o.title == last.title
  {
    var k := |run| - 1;
    if k == 0 {
    } else {
      assert Linked(run[k - 1], run[k], gap);
      SummaryEnds(run[..k], gap);
    }
  }

  /** The severity is the gravest, of the first row that has it; at least "info", from the start. */
  ghost predicate PeakOf(run: seq<Row>, severity: string, ts: real)
    requires run != []
  {
    && (forall i :: 0 <= i < |run| ==> Rank(run[i].severity) <= Rank(severity))
    && (Rank(severity) <= 1 ==> severity == "info" && ts == run[0].ts)
    && (Rank(severity) > 1 ==> exists i :: 0 <= i < |run| && PeakAt(run, severity, ts, i))
  }

  ghost predicate PeakAt(run: seq<Row>, severity: string, ts: real, i: int)
    requires 0 <= i < |run|
  {
    run[i].severity == severity && run[i].ts == ts && forall j :: 0 <= j < i ==> Rank(run[j].severity) < Rank(severity)
  }

  lemma PeakRises(run: seq<Row>, row: Row, severity: string, ts: real)
    requires run != [] && PeakOf(run, severity, ts) && Rank(row.severity) > Rank(severity) >= 1
    ensures PeakOf(run + [row], row.severity, row.ts)
  {
    assert PeakAt(run + [row], row.severity, row.ts, |run|);
  }

  lemma PeakStays(run: seq<Row>, row: Row, severity: string, ts: real)
    requires run != [] && PeakOf(run, severity, ts) && Rank(row.severity) <= Rank(severity)
    ensures PeakOf(run + [row], severity, ts)
  {
    if Rank(severity) > 1 {
      var i :| 0 <= i < |run| && PeakAt(run, severity, ts, i);
      assert forall j :: 0 <= j <= i ==> (run + [row])[j] == run[j];
      assert PeakAt(run + [row], severity, ts, i);
    }
  }

  /** The peak while the run is being built, which starts at "info". */
  lemma PeakStarts(row: Row)
    ensures PeakOf([row], if Rank(row.severity) > 1 then row.severity else "info", row.ts)
  {
    assert Rank("info") == 1;
    assert Rank(row.severity) > 1 ==> PeakAt([row], row.severity, row.ts, 0);
  }

  lemma {:induction false} SummaryPeak(run: seq<Row>)
    requires run != []
    ensures PeakOf(run, Summary(run).severity, Summary(run).peakTs) && Rank(Summary(run).severity) >= 1
  {
    var init, row := run[..|run| - 1], run[|run| - 1];
    assert run == init + [row];
    if init == [] {
      PeakStarts(row);
    } else {
      SummaryPeak(init);
      var was := Summary(init);
      if Rank(row.severity) > Rank(was.severity) {
        PeakRises(init, row, was.severity, was.peakTs);
      } else {
        PeakStays(init, row, was.severity, was.peakTs);
      }
    }
  }

  /** Start, end, length, latest wording, and the peak: the first row of the run's
      highest severity, or its start at "info" when no row is above that. */
  lemma SummaryMeaning(run: seq<Row>, gap: real)
    requires Run(run, gap)
    ensures var o := Summary(run);
            var last := run[|run| - 1];
            o.key == run[0].key == last.key && o.start == run[0].ts && o.last == last.ts &&
            o.buckets == |run| && o.title == last.title && PeakOf(run, o.severity, o.peakTs)
  {
    SummaryEnds(run, gap);
    SummaryPeak(run);
  }

  // ------------------------------------------------------------- the one pass

  /** `_close_incident`, without the ranking of the names. */
  function Close(o: Open, bucket: real, now: real): Incident {
    Incident(o.key, o.start, o.last + bucket, o.buckets, o.severity, o.peakTs, o.title, o.names,
             now - o.last < Gap(bucket))
  }

  /** The incident tells the run: its bounds, how long it is, its latest wording and its
      peak, how often each name was listed and led, and whether it still goes on. */
  ghost predicate Tells(x: Incident, run: seq<Row>, bucket: real, now: real) {
    && run != [] && x.key == run[0].key && x.start == run[0].ts
    && x.buckets == |run| && PeakOf(run, x.severity, x.peakTs)
    && (forall n :: n in x.names <==> ListedIn(run, n) > 0)
    && (forall n :: n in x.names ==> x.names[n] == Tally(ListedIn(run, n), LedIn(run, n)))
    && var last := run[|run| - 1];
       x.end == last.ts + bucket && x.title == last.title && (x.ongoing <==> now - last.ts < bucket * 2.5)
  }

  lemma {:induction false} NamesListed(names: map<string, Tally>, cs: seq<Culprit>, n: string)
    ensures n in AddCulprits(names, cs) <==> n in names || Listed(cs, n) > 0
  {
    if cs == [] {
    } else {
      NamesListed(names, cs[..|cs| - 1], n);
    }
  }

  lemma {:induction false} SummaryNames(run: seq<Row>, n: string)
    requires run != []
    ensures n in Summary(run).names <==> ListedIn(run, n) > 0
  {
    var k := |run| - 1;
    NamesListed(if k == 0 then map[] else Summary(run[..k]).names, Top(run[k].culprits), n);
    if k == 0 {
      assert run[..0] == [];
    } else {
      SummaryNames(run[..k], n);
    }
  }

  lemma IncidentTells(run: seq<Row>, gap: real, bucket: real, now: real)
    requires Run(run, gap)
    ensures Tells(Close(Summary(run), bucket, now), run, bucket, now)
  {
    SummaryMeaning(run, gap);
    forall n ensures n in Summary(run).names <==> ListedIn(run, n) > 0 {
      SummaryNames(run, n);
    }
    forall n | n in Summary(run).names ensures Summary(run).names[n] == Tally(ListedIn(run, n), LedIn(run, n)) {
      SummaryCounts(run, n);
    }
  }

  ghost function CloseAll(runs: seq<seq<Row>>, bucket: real, now: real): seq<Incident>
    requires forall i :: 0 <= i < |runs| ==> runs[i] != []
  {
    seq(|runs|, i requires 0 <= i < |runs| => Close(Summary(runs[i]), bucket, now))
  }

  /** After some rows: every run but the last is closed, the last is being built. */
  ghost predicate Folded(rows: seq<Row>, gap: real, bucket: real, now: real,
                         incidents: seq<Incident>, current: Option<Open>) {
    var runs := Runs(rows, gap);
    if rows == [] then incidents == [] && current == None
    else incidents == CloseAll(runs[..|runs| - 1], bucket, now) && current == Some(Summary(runs[|runs| - 1]))
  }

  predicate Starts(current: Option<Open>, row: Row, gap: real) {
    current.None? || row.key != current.value.key || row.ts - current.value.last > gap
  }

  lemma CloseAllAppend(runs: seq<seq<Row>>, bucket: real, now: real)
    requires runs != [] && forall i :: 0 <= i < |runs| ==> runs[i] != []
    ensures CloseAll(runs, bucket, now) ==
            CloseAll(runs[..|runs| - 1], bucket, now) + [Close(Summary(runs[|runs| - 1]), bucket, now)]
  {
  }

  lemma FoldEnd(rows: seq<Row>, gap: real, bucket: real, now: real, incidents: seq<Incident>, current: Option<Open>)
    requires Folded(rows, gap, bucket, now, incidents, current)
    ensures CloseAll(Runs(rows, gap), bucket, now) ==
            if current.Some? then incidents + [Close(current.value, bucket, now)] else incidents
  {
    if rows != [] {
      CloseAllAppend(Runs(rows, gap), bucket, now);
    }
  }

  /** What one row does: it continues the incident being built, or closes it. */
  ghost predicate Taken(row: Row, gap: real, bucket: real, now: real, incidents: seq<Incident>,
                        current: Option<Open>, closed: seq<Incident>, open: Open) {
    var starts := Starts(current, row, gap);
    && closed == (if starts && current.Some? then incidents + [Close(current.value, bucket, now)] else incidents)
    && open == Extend(if starts then Begin(row) else current.value, row)
  }

  lemma FoldFirst(row: Row, gap: real, bucket: real, now: real)
    ensures Folded([row], gap, bucket, now, [], Some(Extend(Begin(row), row)))
  {
    RunsStep([], row, gap);
    assert [] + [row] == [row] && [[row]][..0] == [] && [row][..0] == [];
  }

  lemma FoldContinues(rows: seq<Row>, row: Row, gap: real, bucket: real, now: real, incidents: seq<Incident>,
                      current: Open)
    requires rows != [] && Folded(rows, gap, bucket, now, incidents, Some(current))
    requires Linked(rows[|rows| - 1], row, gap)
    ensures Folded(rows + [row], gap, bucket, now, incidents, Some(Extend(current, row)))
  {
    var runs := Runs(rows, gap);
    var k := |runs| - 1;
    RunsStep(rows, row, gap);
    SummaryGrows(runs[k], row);
    assert (runs[..k] + [runs[k] + [row]])[..k] == runs[..k];
  }

  lemma FoldCloses(rows: seq<Row>, row: Row, gap: real, bucket: real, now: real, incidents: seq<Incident>,
                   current: Open)
    requires rows != [] && Folded(rows, gap, bucket, now, incidents, Some(current))
    requires !Linked(rows[|rows| - 1], row, gap)
    ensures Folded(rows + [row], gap, bucket, now, incidents + [Close(current, bucket, now)],
                   Some(Extend(Begin(row), row)))
  {
    var runs := Runs(rows, gap);
    RunsStep(rows, row, gap);
    CloseAllAppend(runs, bucket, now);
    assert (runs + [[row]])[..|runs|] == runs && [row][..0] == [];
  }

  lemma FoldStep(rows: seq<Row>, row: Row, gap: real, bucket: real, now: real,
                 incidents: seq<Incident>, current: Option<Open>, closed: seq<Incident>, open: Open)
    requires Folded(rows, gap, bucket, now, incidents, current)
    requires Taken(row, gap, bucket, now, incidents, current, closed, open)
    ensures Folded(rows + [row], gap, bucket, now, closed, Some(open))
  {
    if rows == [] {
      FoldFirst(row, gap, bucket, now);
      assert rows + [row] == [row];
    } else {
      StartsIffUnlinked(rows, row, gap);
      if Linked(rows[|rows| - 1], row, gap) {
        FoldContinues(rows, row, gap, bucket, now, incidents, current.value);
      } else {
        FoldCloses(rows, row, gap, bucket, now, incidents, current.value);
      }
    }
  }

  lemma StartsIffUnlinked(rows: seq<Row>, row: Row, gap: real)
    requires rows != []
    ensures var runs := Runs(rows, gap);
            Starts(Some(Summary(runs[|runs| - 1])), row, gap) <==> !Linked(rows[|rows| - 1], row, gap)
  {
    var runs := Runs(rows, gap);
    RunsAreMaximal(rows, gap);
    LastOfFlatten(runs);
    SummaryMeaning(runs[|runs| - 1], gap);
  }

  lemma SummaryGrows(run: seq<Row>, row: Row)
    requires run != []
    ensures Summary(run + [row]) == Extend(Summary(run), row)
  {
    assert (run + [row])[..|run|] == run;
  }

  lemma TopSlice(top: seq<Culprit>, rank: nat)
    requires rank < |top|
    ensures top[..rank + 1][..rank] == top[..rank] && top[..rank + 1][rank] == top[rank]
  {
  }

  /** The inner loop over one row's culprits. */
  method CountCulprits(names: map<string, Tally>, culprits: seq<Culprit>) returns (r: map<string, Tally>)
    ensures r == AddCulprits(names, Top(culprits))
  {
    r := names;
    var top := Top(culprits);
    var rank := 0;
    while rank < |top|
      invariant 0 <= rank <= |top| && r == AddCulprits(names, top[..rank])
    {
      TopSlice(top, rank);
      if top[rank].Named? {
        var n := top[rank].name;
        var t := if n in r then r[n] else Tally(0, 0);
        r := r[n := Tally(t.buckets + 1, t.led + if rank == 0 then 1 else 0)];
      }
      rank := rank + 1;
    }
    assert top[..rank] == top;
  }

  /** One more row for the incident being built. */
  method AddRow(o: Open, row: Row) returns (r: Open)
    ensures r == Extend(o, row)
  {
    r := o.(last := row.ts, buckets := o.buckets + 1, title := row.title);
    if Rank(row.severity) > Rank(o.severity) {
      r := r.(severity := row.severity, peakTs := row.ts);
    }
    var names := CountCulprits(o.names, row.culprits);
    r := r.(names := names);
  }

  /** The body of the loop over the rows. */
  method TakeRow(row: Row, gap: real, bucket: real, now: real, incidents: seq<Incident>, current: Option<Open>)
    returns (closed: seq<Incident>, open: Open)
    ensures Taken(row, gap, bucket, now, incidents, current, closed, open)
  {
    closed := incidents;
    if current.None? || row.key != current.value.key || row.ts - current.value.last > gap {
      if current.Some? {
        closed := closed + [Close(current.value, bucket, now)];
      }
      open := Begin(row);
    } else {
      open := current.value;
    }
    open := AddRow(open, row);
  }

  method FoldRow(ghost done: seq<Row>, row: Row, gap: real, bucket: real, now: real, incidents: seq<Incident>,
                 current: Option<Open>)
    returns (closed: seq<Incident>, open: Option<Open>)
    requires Folded(done, gap, bucket, now, incidents, current)
    ensures Folded(done + [row], gap, bucket, now, closed, open)
  {
    var o;
    closed, o := TakeRow(row, gap, bucket, now, incidents, current);
    FoldStep(done, row, gap, bucket, now, incidents, current, closed, o);
    open := Some(o);
  }

  /** The loop over the rows. */
  method FoldRows(rows: seq<Row>, gap: real, bucket: real, now: real) returns (incidents: seq<Incident>)
    ensures incidents == CloseAll(Runs(rows, gap), bucket, now)
  {
    incidents := [];
    var current: Option<Open> := None;
    ghost var done: seq<Row> := [];
    for i := 0 to |rows|
      invariant done == rows[..i] && Folded(done, gap, bucket, now, incidents, current)
    {
      OneMore(rows, i);
      incidents, current := FoldRow(done, rows[i], gap, bucket, now, incidents, current);
      done := done + [rows[i]];
    }
    assert done == rows;
    FoldEnd(done, gap, bucket, now, incidents, current);
    if current.Some? {
      incidents := incidents + [Close(current.value, bucket, now)];
    }
  }

  // ------------------------------------------------- filter, order and limit

  ghost function BucketTotal(runs: seq<seq<Row>>): nat {
    if runs == [] then 0 else BucketTotal(runs[..|runs| - 1]) + |runs[|runs| - 1]|
  }

  /** The bucket counts of all incidents add up to the rows. */
  lemma {:induction false} BucketsAddUp(runs: seq<seq<Row>>)
    ensures BucketTotal(runs) == |Flatten(runs)|
  {
    if runs == [] {
    } else {
      BucketsAddUp(runs[..|runs| - 1]);
    }
  }

  function EndedSince(incidents: seq<Incident>, since: real): seq<Incident> {
    if incidents == [] then [] else
    EndedSince(incidents[..|incidents| - 1], since)
    + if incidents[|incidents| - 1].end >= since then [incidents[|incidents| - 1]] else []
  }

  predicate Newer(x: Incident, y: Incident) {
    x.start >= y.start
  }

  /** A stable sort by falling start. */
  function NewestFirst(s: seq<Incident>): seq<Incident> {
    Sort(s, Newer)
  }

  ghost predicate Falling(s: seq<Incident>) {
    forall i, j :: 0 <= i < j < |s| ==> s[i].start >= s[j].start
  }

  lemma NewestFirstSorts(s: seq<Incident>)
    ensures Falling(NewestFirst(s)) && multiset(NewestFirst(s)) == multiset(s)
  {
    SortOrdered(s, Newer);
    SortBag(s, Newer);
    forall i, j | 0 <= i < j < |s| ensures NewestFirst(s)[i].start >= NewestFirst(s)[j].start {
      OrderedPair(NewestFirst(s), Newer, i, j);
    }
  }

  /** SQLite's order of text: character by character. */
  predicate TextLe(a: string, b: string) {
    a == "" || (b != "" && (a[0] < b[0] || (a[0] == b[0] && TextLe(a[1..], b[1..]))))
  }

  lemma {:induction false} TextTotal(a: string, b: string)
    ensures TextLe(a, b) || TextLe(b, a)
    ensures TextLe(a, b) && TextLe(b, a) ==> a == b
  {
    if a == "" || b == "" {
    } else {
      TextTotal(a[1..], b[1..]);
      assert a == [a[0]] + a[1..] && b == [b[0]] + b[1..];
    }
  }

  lemma {:induction false} TextTransitive(a: string, b: string, c: string)
    requires TextLe(a, b) && TextLe(b, c)
    ensures TextLe(a, c)
  {
    if a == "" {
    } else if a[0] == b[0] == c[0] {
      TextTransitive(a[1..], b[1..], c[1..]);
    }
  }

  /** `ORDER BY key, ts`. */
  predicate KeyThenTime(a: Row, b: Row) {
    if a.key == b.key then a.ts <= b.ts else TextLe(a.key, b.key)
  }

  lemma KeyThenTimeOrders()
    ensures TotalOrder(KeyThenTime)
  {
    forall a, b ensures KeyThenTime(a, b) || KeyThenTime(b, a) {
      TextTotal(a.key, b.key);
    }
    forall a, b, c | KeyThenTime(a, b) && KeyThenTime(b, c) ensures KeyThenTime(a, c) {
      TextTotal(a.key, b.key);
      if a.key != b.key && b.key != c.key {
        TextTransitive(a.key, b.key, c.key);
      }
    }
  }

  function From(rows: seq<Row>, ts: real): seq<Row> {
    if rows == [] then [] else
    From(rows[..|rows| - 1], ts) + if rows[|rows| - 1].ts >= ts then [rows[|rows| - 1]] else []
  }

  /** The rows the query gives. */
  function Queried(stored: seq<Row>, ts: real): seq<Row> {
    Sort(From(stored, ts), KeyThenTime)
  }

  /** The incidents of some rows that end in time, newest first. */
  ghost function Found(rows: seq<Row>, since: real, bucket: real, now: real): seq<Incident> {
    NewestFirst(EndedSince(CloseAll(Runs(rows, Gap(bucket)), bucket, now), since))
  }

  /** Exactly the stored rows from a time on, in the order of key and time. */
  ghost predicate InRange(stored: seq<Row>, ts: real, rows: seq<Row>) {
    && (forall r :: multiset(rows)[r] == if r.ts >= ts then multiset(stored)[r] else 0)
    && Sequenced(rows)
  }

  /** One incident for each run. */
  ghost predicate AllTold(told: seq<Incident>, runs: seq<seq<Row>>, bucket: real, now: real) {
    |told| == |runs| && forall i :: 0 <= i < |runs| ==> Tells(told[i], runs[i], bucket, now)
  }

  /** Of these, those that end in time, newest first, as many as asked for. */
  ghost predicate Newest(told: seq<Incident>, since: real, limit: nat, incidents: seq<Incident>) {
    exists all: seq<Incident> ::
      && (forall x: Incident :: multiset(all)[x] == if x.end >= since then multiset(told)[x] else 0)
      && Falling(all) && incidents <= all && |incidents| == if |all| > limit then limit else |all|
  }

  /** What a caller is given: the stored rows since two and a half buckets earlier, parted
      into maximal runs, an incident told of each, and the newest of those. */
  ghost predicate Answers(stored: seq<Row>, since: real, limit: nat, bucket: real, now: real,
                          incidents: seq<Incident>) {
    exists rows, runs, told :: AnsweredBy(stored, since, limit, bucket, now, rows, runs, told, incidents)
  }

  ghost predicate AnsweredBy(stored: seq<Row>, since: real, limit: nat, bucket: real, now: real,
                        rows: seq<Row>, runs: seq<seq<Row>>, told: seq<Incident>, incidents: seq<Incident>) {
    && InRange(stored, since - bucket * 2.5, rows) && MaximalRuns(rows, bucket * 2.5, runs)
    && AllTold(told, runs, bucket, now) && Newest(told, since, limit, incidents)
  }

  lemma {:induction false} FromCounts(rows: seq<Row>, ts: real, r: Row)
    ensures multiset(From(rows, ts))[r] == if r.ts >= ts then multiset(rows)[r] else 0
  {
    if rows == [] {
    } else {
      FromCounts(rows[..|rows| - 1], ts, r);
      assert rows == rows[..|rows| - 1] + [rows[|rows| - 1]];
    }
  }

  lemma {:induction false} EndedCounts(xs: seq<Incident>, since: real, x: Incident)
    ensures multiset(EndedSince(xs, since))[x] == if x.end >= since then multiset(xs)[x] else 0
  {
    if xs == [] {
    } else {
      EndedCounts(xs[..|xs| - 1], since, x);
      assert xs == xs[..|xs| - 1] + [xs[|xs| - 1]];
    }
  }

  lemma QueriedInRange(stored: seq<Row>, ts: real)
    ensures InRange(stored, ts, Queried(stored, ts))
  {
    QueriedSequenced(stored, ts);
    SortBag(From(stored, ts), KeyThenTime);
    forall r ensures multiset(Queried(stored, ts))[r] == if r.ts >= ts then multiset(stored)[r] else 0 {
      FromCounts(stored, ts, r);
    }
  }

  lemma NewestOf(told: seq<Incident>, since: real, limit: nat)
    ensures Newest(told, since, limit, Limited(NewestFirst(EndedSince(told, since)), limit))
  {
    var all := NewestFirst(EndedSince(told, since));
    NewestFirstSorts(EndedSince(told, since));
    forall x: Incident ensures multiset(all)[x] == if x.end >= since then multiset(told)[x] else 0 {
      EndedCounts(told, since, x);
    }
    assert Limited(all, limit) <= all;
  }

  lemma RunsTold(rows: seq<Row>, gap: real, bucket: real, now: real)
    ensures var runs := Runs(rows, gap);
            MaximalRuns(rows, gap, runs) && AllTold(CloseAll(runs, bucket, now), runs, bucket, now)
  {
    var runs := Runs(rows, gap);
    RunsAreMaximal(rows, gap);
    forall i | 0 <= i < |runs| ensures Tells(CloseAll(runs, bucket, now)[i], runs[i], bucket, now) {
      IncidentTells(runs[i], gap, bucket, now);
    }
  }

  lemma Assembled(stored: seq<Row>, since: real, limit: nat, bucket: real, now: real, ts: real, gap: real,
                  rows: seq<Row>, runs: seq<seq<Row>>, told: seq<Incident>, incidents: seq<Incident>)
    requires ts == since - bucket * 2.5 && gap == bucket * 2.5
    requires InRange(stored, ts, rows) && MaximalRuns(rows, gap, runs)
    requires AllTold(told, runs, bucket, now) && Newest(told, since, limit, incidents)
    ensures Answers(stored, since, limit, bucket, now, incidents)
  {
    assert AnsweredBy(stored, since, limit, bucket, now, rows, runs, told, incidents);
  }

  lemma QueryAnswers(stored: seq<Row>, since: real, limit: nat, bucket: real, now: real)
    ensures Answers(stored, since, limit, bucket, now,
                    Limited(Found(Queried(stored, since - Gap(bucket)), since, bucket, now), limit))
  {
    var gap := Gap(bucket);
    var ts := since - gap;
    var rows := Queried(stored, ts);
    var runs := Runs(rows, gap);
    var told := CloseAll(runs, bucket, now);
    QueriedInRange(stored, ts);
    RunsTold(rows, gap, bucket, now);
    NewestOf(told, since, limit);
    Assembled(stored, since, limit, bucket, now, ts, gap, rows, runs, told,
              Limited(NewestFirst(EndedSince(told, since)), limit));
  }

  /** `LIMIT` on a list. */
  function Limited(all: seq<Incident>, limit: nat): seq<Incident> {
    if |all| <= limit then all else all[..limit]
  }

  /** `History.incidents`, over the rows stored for a node, without the actions and
      changes attached to each incident. */
  method IncidentsSince(stored: seq<Row>, since: real, limit: nat, bucket: real, now: real)
    returns (incidents: seq<Incident>)
    ensures incidents == Limited(Found(Queried(stored, since - Gap(bucket)), since, bucket, now), limit)
    ensures Answers(stored, since, limit, bucket, now, incidents)
  {
    QueryAnswers(stored, since, limit, bucket, now);
    var rows := Queried(stored, since - Gap(bucket));
    var folded := FoldRows(rows, Gap(bucket), bucket, now);
    incidents := Limited(NewestFirst(EndedSince(folded, since)), limit);
  }

  lemma {:induction false} EndedSinceKeeps(incidents: seq<Incident>, since: real, x: Incident)
    ensures x in EndedSince(incidents, since) <==> x in incidents && x.end >= since
  {
    if incidents == [] {
    } else {
      EndedSinceKeeps(incidents[..|incidents| - 1], since, x);
      assert incidents == incidents[..|incidents| - 1] + [incidents[|incidents| - 1]];
    }
  }

  lemma {:induction false} FromKeeps(rows: seq<Row>, ts: real, row: Row)
    ensures row in From(rows, ts) <==> row in rows && row.ts >= ts
  {
    if rows == [] {
    } else {
      FromKeeps(rows[..|rows| - 1], ts, row);
      assert rows == rows[..|rows| - 1] + [rows[|rows| - 1]];
    }
  }

  ghost predicate Sequenced(rows: seq<Row>) {
    forall i, j :: 0 <= i < j < |rows| ==> KeyThenTime(rows[i], rows[j])
  }

  lemma QueriedSequenced(stored: seq<Row>, ts: real)
    ensures Sequenced(Queried(stored, ts))
  {
    KeyThenTimeOrders();
    SortOrdered(From(stored, ts), KeyThenTime);
    forall i, j | 0 <= i < j < |Queried(stored, ts)|
      ensures KeyThenTime(Queried(stored, ts)[i], Queried(stored, ts)[j])
    {
      OrderedPair(Queried(stored, ts), KeyThenTime, i, j);
    }
  }

  lemma SequencedParts(a: seq<Row>, b: seq<Row>)
    requires Sequenced(a + b)
    ensures Sequenced(a) && Sequenced(b)
  {
    var ab := a + b;
    forall i, j | 0 <= i < j < |a| ensures KeyThenTime(a[i], a[j]) {
      assert ab[i] == a[i] && ab[j] == a[j];
    }
    forall i, j | 0 <= i < j < |b| ensures KeyThenTime(b[i], b[j]) {
      assert ab[|a| + i] == b[i] && ab[|a| + j] == b[j];
    }
  }

  /** Where in the runs a row is, and that its run is in order too. */
  lemma {:induction false} RunOf(runs: seq<seq<Row>>, row: Row) returns (r: nat, i: nat)
    requires row in Flatten(runs) && Sequenced(Flatten(runs))
    ensures r < |runs| && i < |runs[r]| && runs[r][i] == row && Sequenced(runs[r])
  {
    var init, last := runs[..|runs| - 1], runs[|runs| - 1];
    SequencedParts(Flatten(init), last);
    if row in last {
      r := |runs| - 1;
      i :| 0 <= i < |last| && last[i] == row;
    } else {
      r, i := RunOf(init, row);
    }
  }

  lemma {:induction false} OneKey(run: seq<Row>, gap: real, i: nat)
    requires Run(run, gap) && i < |run|
    ensures run[i].key == run[0].key
  {
    if i > 0 {
      OneKey(run, gap, i - 1);
      assert Linked(run[i - 1], run[i], gap);
    }
  }

  /** A row of a run lies within the incident the run becomes, which has its key. */
  lemma WithinIncident(run: seq<Row>, gap: real, bucket: real, now: real, i: nat)
    requires Run(run, gap) && i < |run| && bucket >= 0.0 && Sequenced(run)
    ensures var x := Close(Summary(run), bucket, now); x.key == run[i].key && x.start <= run[i].ts <= x.end
  {
    var last := |run| - 1;
    SummaryMeaning(run, gap);
    OneKey(run, gap, i);
    OneKey(run, gap, last);
    assert i > 0 ==> KeyThenTime(run[0], run[i]);
    assert i < last ==> KeyThenTime(run[i], run[last]);
    assert run[0].ts <= run[i].ts <= run[last].ts;
    CloseSpans(Summary(run), bucket, now);
  }

  lemma CloseSpans(o: Open, bucket: real, now: real)
    requires bucket >= 0.0
    ensures var x := Close(o, bucket, now); x.key == o.key && x.start == o.start && o.last <= x.end
  {
  }

  /** No stored row at or after `since` is lost, to the widened range, to the folding or to
      the end filter: before the limit there is an incident of its key that spans it. */
  lemma NoRowLost(stored: seq<Row>, row: Row, since: real, bucket: real, now: real) returns (x: Incident)
    requires bucket >= 0.0 && row in stored && row.ts >= since
    ensures x in Found(Queried(stored, since - Gap(bucket)), since, bucket, now)
    ensures x.key == row.key && x.start <= row.ts <= x.end
  {
    var gap := Gap(bucket);
    var rows := Queried(stored, since - Gap(bucket));
    FromKeeps(stored, since - Gap(bucket), row);
    SortMembers(From(stored, since - Gap(bucket)), KeyThenTime);
    QueriedSequenced(stored, since - Gap(bucket));
    RunsAreMaximal(rows, Gap(bucket));
    var runs := Runs(rows, Gap(bucket));
    var r, i := RunOf(runs, row);
    WithinIncident(runs[r], Gap(bucket), bucket, now, i);
    x := Close(Summary(runs[r]), bucket, now);
    var all := CloseAll(runs, bucket, now);
    assert all[r] == x;
    EndedSinceKeeps(all, since, x);
    SortMembers(EndedSince(all, since), Newer);
  }
}
