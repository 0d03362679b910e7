/** Expected-busy annotations (`Expectations.match`, `annotate`, `_window_state`,
    `_minutes_past_end`).  A report is annotated in place.  `annotate` takes off what an
    earlier pass wrote before it writes its own, so that one report may be annotated any
    number of times; the theorems about many passes are about `annotate` itself, whose
    present callers each hand it a report that is new. */
module Expectations {
  import opened Prelude
  import opened Sorting

  const OVERRUN_WINDOW_MIN: nat := 30
  const DAY: nat := 1440

  // ---------------------------------------------------------------- windows

  type Minute = m: nat | m < 1440

  type Weekday = d: nat | d < 7

  /** A daily window in minutes; `Broken` when a time cannot be read. */
  datatype Window = Always | Broken | Daily(start: Minute, end: Minute)

  datatype Row = Row(id: int, node: string, key: string, culprit: string, reason: string,
                     window: Window, days: set<nat>)

  /** The host's local weekday and minute of the day. */
  datatype Clock = Clock(day: Weekday, minute: Minute)

  datatype State = Active | Overrun

  predicate On(row: Row, day: nat) {
    row.days == {} || day in row.days
  }

  /** `_window_state`. */
  function WindowState(row: Row, c: Clock): Option<State> {
    match row.window
    case Always => Some(Active)
    case Broken => None
    case Daily(s, e) =>
      var yesterday := (c.day + 6) % 7;
      if s < e then
        if On(row, c.day) && s <= c.minute < e then Some(Active)
        else if On(row, c.day) && e <= c.minute < e + OVERRUN_WINDOW_MIN then Some(Overrun)
        else None
      else if (On(row, c.day) && c.minute >= s) || (On(row, yesterday) && c.minute < e) then Some(Active)
      else if On(row, yesterday) && e <= c.minute < e + OVERRUN_WINDOW_MIN then Some(Overrun)
      else None
  }

  /** `_minutes_past_end`. */
  function MinutesPastEnd(row: Row, c: Clock): Option<int> {
    if row.window.Daily? then Some((c.minute - row.window.end) % DAY) else None
  }

  /** Minutes from `a` on to `b`, around the clock. */
  ghost function Ahead(a: Minute, b: Minute): nat {
    if a <= b then b - a else b + 1440 - a
  }

  /** How long a window is; one that ends when it begins lasts a day. */
  ghost function Length(start: Minute, end: Minute): nat {
    if start < end then end - start else end + 1440 - start
  }

  /** No days given are all days. */
  ghost predicate RunsOn(row: Row, day: int) {
    row.days != {} ==> exists d :: d in row.days && d == day
  }

  /** The window last began on a day it applies to, and is not over yet. */
  ghost predicate IsOpen(row: Row, c: Clock)
    requires row.window.Daily?
  {
    var w := row.window;
    Ahead(w.start, c.minute) < Length(w.start, w.end) &&
    RunsOn(row, if c.minute >= w.start then c.day else if c.day == 0 then 6 else c.day - 1)
  }

  /** One that applied ended today, less than half an hour ago. */
  ghost predicate JustEnded(row: Row, c: Clock)
    requires row.window.Daily?
  {
    var w := row.window;
    w.end <= c.minute < w.end + 30 &&
    RunsOn(row, if w.start < w.end then c.day else if c.day == 0 then 6 else c.day - 1)
  }

  ghost predicate IsIn(row: Row, c: Clock, s: State) {
    match row.window
    case Always => s == Active
    case Broken => false
    case Daily(_, _) => if s == Active then IsOpen(row, c) else JustEnded(row, c) && !IsOpen(row, c)
  }

  /** Without a window always active, with one that cannot be read never.  Active: the
      window last began on a day it applies to and is not over yet.  Overrun: not so, and
      one that applied ended today, less than half an hour ago. */
  lemma WindowMeaning(row: Row, c: Clock, s: State)
    ensures WindowState(row, c) == Some(s) <==> IsIn(row, c, s)
  {
    assert forall d: nat :: RunsOn(row, d) <==> On(row, d);
  }

  /** An overrun is always reported with the minutes since the window closed. */
  lemma OverrunMinutes(row: Row, c: Clock)
    requires WindowState(row, c) == Some(Overrun)
    ensures MinutesPastEnd(row, c) == Some(c.minute - row.window.end)
    ensures 0 <= c.minute - row.window.end < OVERRUN_WINDOW_MIN
  {
  }

  // --------------------------------------------------------------- findings

  /** A JSON field: not there, null, or text. */
  datatype Field = Missing | Null | Text(s: string)

  datatype Summary = Summary(id: int, reason: string, window: Window, culprit: string)

  /** `names` are the culprits' base names; `rest` is everything annotation never touches. */
  datatype Finding = Finding(key: string, names: set<string>, severity: Field, raw: Field,
                             expected: Option<Summary>, overrun: Option<(Summary, Option<int>)>,
                             ticks: real, rest: string)

  /** One call: the node, the list as it is, and the time. */
  datatype Env = Env(node: string, rows: seq<Row>, clock: Clock)

  predicate Applies(row: Row, f: Finding, node: string) {
    row.key == f.key && (row.node == "*" || row.node == node) && (row.culprit == "" || row.culprit in f.names)
  }

  predicate Hit(row: Row, f: Finding, e: Env, s: State) {
    Applies(row, f, e.node) && WindowState(row, e.clock) == Some(s)
  }

  /** The first row of the list that applies in that state. */
  function First(rows: seq<Row>, f: Finding, e: Env, s: State): Option<Row> {
    if rows == [] then None
    else if Hit(rows[0], f, e, s) then Some(rows[0])
    else First(rows[1..], f, e, s)
  }

  lemma {:induction false} FirstMeaning(rows: seq<Row>, f: Finding, e: Env, s: State)
    ensures First(rows, f, e, s).None? <==> forall i :: 0 <= i < |rows| ==> !Hit(rows[i], f, e, s)
    ensures First(rows, f, e, s).Some? ==>
              exists i :: 0 <= i < |rows| && rows[i] == First(rows, f, e, s).value && Hit(rows[i], f, e, s) &&
                forall j :: 0 <= j < i ==> !Hit(rows[j], f, e, s)
  {
    if rows != [] && !Hit(rows[0], f, e, s) {
      FirstMeaning(rows[1..], f, e, s);
      if First(rows[1..], f, e, s).Some? {
        var i :| 0 <= i < |rows[1..]| && rows[1..][i] == First(rows[1..], f, e, s).value &&
          Hit(rows[1..][i], f, e, s) && forall j :: 0 <= j < i ==> !Hit(rows[1..][j], f, e, s);
        assert forall j :: 0 < j < |rows| ==> rows[j] == rows[1..][j - 1];
        assert rows[i + 1] == rows[1..][i];
      }
    }
  }

  /** An active row anywhere in the list beats an overrun one before it. */
  function Matched(f: Finding, e: Env): Option<(Row, State)> {
    var active, overrun := First(e.rows, f, e, Active), First(e.rows, f, e, Overrun);
    if active.Some? then Some((active.value, Active))
    else if overrun.Some? then Some((overrun.value, Overrun))
    else None
  }

  lemma {:induction false} FirstAppend(rows: seq<Row>, row: Row, f: Finding, e: Env, s: State)
    ensures First(rows + [row], f, e, s) ==
            if First(rows, f, e, s).Some? then First(rows, f, e, s)
            else if Hit(row, f, e, s) then Some(row) else None
  {
    if rows == [] {
      assert (rows + [row])[1..] == [];
    } else {
      FirstAppend(rows[1..], row, f, e, s);
      assert (rows + [row])[1..] == rows[1..] + [row];
    }
  }

  lemma {:induction false} FirstOfAll(rows: seq<Row>, k: nat, f: Finding, e: Env, s: State)
    requires k <= |rows| && First(rows[..k], f, e, s).Some?
    ensures First(rows, f, e, s) == First(rows[..k], f, e, s)
  {
    if rows != [] && k > 0 && !Hit(rows[0], f, e, s) {
      assert rows[..k][1..] == rows[1..][..k - 1];
      FirstOfAll(rows[1..], k - 1, f, e, s);
    }
  }

  /** `match`: one pass, leaving at the first active row. */
  method Match(f: Finding, e: Env) returns (m: Option<(Row, State)>)
    ensures m == Matched(f, e) && Chosen(m, f, e)
  {
    MatchedChosen(f, e);
    var best: Option<Row> := None;
    for k := 0 to |e.rows|
      invariant First(e.rows[..k], f, e, Active) == None
      invariant best == First(e.rows[..k], f, e, Overrun)
    {
      var row := e.rows[k];
      assert e.rows[..k + 1] == e.rows[..k] + [row];
      FirstAppend(e.rows[..k], row, f, e, Active);
      FirstAppend(e.rows[..k], row, f, e, Overrun);
      if Applies(row, f, e.node) {
        var state := WindowState(row, e.clock);
        if state == Some(Active) {
          FirstOfAll(e.rows, k + 1, f, e, Active);
          return Some((row, Active));
        }
        if state == Some(Overrun) && best.None? {
          best := Some(row);
        }
      }
    }
    assert e.rows[..|e.rows|] == e.rows;
    m := if best.Some? then Some((best.value, Overrun)) else None;
  }

  // What a match must be, from the list and the finding alone.

  /** The row is about this finding: its key, this node or any, this culprit or any. */
  ghost predicate IsAbout(row: Row, f: Finding, node: string) {
    && row.key == f.key
    && (row.node != "*" ==> row.node == node)
    && (row.culprit != "" ==> row.culprit in f.names)
  }

  ghost predicate Applying(e: Env, i: int, f: Finding, s: State) {
    0 <= i < |e.rows| && IsAbout(e.rows[i], f, e.node) && IsIn(e.rows[i], e.clock, s)
  }

  ghost predicate FirstAt(e: Env, i: int, f: Finding, s: State) {
    Applying(e, i, f, s) && forall j :: 0 <= j < i ==> !Applying(e, j, f, s)
  }

  /** The first active row about the finding, wherever it stands; else the first overrun;
      else none. */
  ghost predicate Chosen(m: Option<(Row, State)>, f: Finding, e: Env) {
    match m
    case Some((row, Active)) => exists i :: FirstAt(e, i, f, Active) && e.rows[i] == row
    case Some((row, Overrun)) =>
      (forall i :: !Applying(e, i, f, Active)) && exists i :: FirstAt(e, i, f, Overrun) && e.rows[i] == row
    case None => forall i, s :: !Applying(e, i, f, s)
  }

  lemma HitApplies(e: Env, i: nat, f: Finding, s: State)
    requires i < |e.rows|
    ensures Hit(e.rows[i], f, e, s) <==> Applying(e, i, f, s)
  {
    WindowMeaning(e.rows[i], e.clock, s);
  }

  lemma FirstIs(f: Finding, e: Env, s: State)
    ensures First(e.rows, f, e, s).None? ==> forall i :: !Applying(e, i, f, s)
    ensures First(e.rows, f, e, s).Some? ==>
              exists i :: FirstAt(e, i, f, s) && e.rows[i] == First(e.rows, f, e, s).value
  {
    FirstMeaning(e.rows, f, e, s);
    forall i: nat | i < |e.rows| ensures Hit(e.rows[i], f, e, s) <==> Applying(e, i, f, s) {
      HitApplies(e, i, f, s);
    }
    if First(e.rows, f, e, s).Some? {
      var i :| 0 <= i < |e.rows| && e.rows[i] == First(e.rows, f, e, s).value && Hit(e.rows[i], f, e, s) &&
        forall j :: 0 <= j < i ==> !Hit(e.rows[j], f, e, s);
      assert FirstAt(e, i, f, s);
    }
  }

  lemma MatchedChosen(f: Finding, e: Env)
    ensures Chosen(Matched(f, e), f, e)
  {
    FirstIs(f, e, Active);
    FirstIs(f, e, Overrun);
    if Matched(f, e).None? {
      forall i, s ensures !Applying(e, i, f, s) {
        assert s == Active || s == Overrun;
      }
    }
  }

  // ------------------------------------------------------------- one finding

  /** `finding.get(...)`: a missing field reads as null. */
  function Get(field: Field): Field {
    if field.Missing? then Null else field
  }

  /** What an earlier pass wrote is taken off again. */
  function Restored(f: Finding): Finding {
    f.(expected := None, overrun := None,
       severity := if f.raw.Missing? then f.severity else f.raw, raw := Missing)
  }

  function Described(row: Row): Summary {
    Summary(row.id, row.reason, row.window, row.culprit)
  }

  function Marked(f: Finding, e: Env): Finding {
    var clean := Restored(f);
    match Matched(f, e)
    case None => clean
    case Some((row, Active)) =>
      clean.(expected := Some(Described(row)), raw := Get(clean.severity), severity := Text("info"))
    case Some((row, Overrun)) =>
      clean.(overrun := Some((Described(row), MinutesPastEnd(row, e.clock))))
  }

  ghost predicate Describes(x: Summary, row: Row) {
    x.id == row.id && x.reason == row.reason && x.window == row.window && x.culprit == row.culprit
  }

  /** What a match makes of a finding.  An earlier mark is gone and the severity it hid is
      back; an active row marks it expected, with its severity kept aside and "info" in
      place; an overrun one adds how many minutes ago the window closed. */
  ghost predicate MarkedBy(was: Finding, now: Finding, m: Option<(Row, State)>, c: Clock) {
    var own := if was.raw == Missing then was.severity else was.raw;
    && now.key == was.key && now.names == was.names && now.ticks == was.ticks && now.rest == was.rest
    && match m
       case None => now.expected == None && now.overrun == None && now.severity == own && now.raw == Missing
       case Some((row, Active)) =>
         && now.expected.Some? && Describes(now.expected.value, row) && now.overrun == None
         && now.severity == Text("info") && now.raw == if own == Missing then Null else own
       case Some((row, Overrun)) =>
         && now.expected == None && now.severity == own && now.raw == Missing
         && now.overrun.Some? && Describes(now.overrun.value.0, row)
         && row.window.Daily? && now.overrun.value.1 == Some(c.minute - row.window.end)
  }

  ghost predicate RightlyMarked(was: Finding, now: Finding, e: Env) {
    exists m :: Chosen(m, was, e) && MarkedBy(was, now, m, e.clock)
  }

  lemma MarkedRightly(f: Finding, e: Env)
    ensures RightlyMarked(f, Marked(f, e), e)
  {
    MatchedChosen(f, e);
    var m := Matched(f, e);
    if m.Some? && m.value.1 == Overrun {
      var i :| FirstAt(e, i, f, Overrun) && e.rows[i] == m.value.0;
      WindowMeaning(m.value.0, e.clock, Overrun);
      OverrunMinutes(m.value.0, e.clock);
    }
    assert MarkedBy(f, Marked(f, e), m, e.clock);
  }

  predicate IsExpected(f: Finding, e: Env) {
    Matched(f, e).Some? && Matched(f, e).value.1 == Active
  }

  /** Annotating again forgets the first pass exactly, unless the finding came without a
      severity, was expected then and is not now: it is left with a null one. */
  lemma MarkedTwice(f: Finding, first: Env, second: Env)
    ensures Marked(Marked(f, first), second) == Marked(f, second) <==>
            !(Restored(f).severity.Missing? && IsExpected(f, first) && !IsExpected(f, second))
  {
    var once := Marked(f, first);
    assert Matched(once, second) == Matched(f, second) by {
      SameMatch(f, once, second.rows, second, Active);
      SameMatch(f, once, second.rows, second, Overrun);
    }
  }

  lemma {:induction false} SameMatch(f: Finding, g: Finding, rows: seq<Row>, e: Env, s: State)
    requires f.key == g.key && f.names == g.names
    ensures First(rows, f, e, s) == First(rows, g, e, s)
  {
    if rows == [] {
    } else {
      SameMatch(f, g, rows[1..], e, s);
    }
  }

  // -------------------------------------------------------------- the report

  /** `str(f.get("severity"))`. */
  function Spelled(f: Finding): string {
    if f.severity.Text? then f.severity.s else "None"
  }

  /** The sort key: graver first, then longer sustained. */
  predicate Before(f: Finding, g: Finding) {
    Rank(Spelled(f)) > Rank(Spelled(g)) || (Rank(Spelled(f)) == Rank(Spelled(g)) && f.ticks >= g.ticks)
  }

  function MarkAll(fs: seq<Finding>, e: Env): (r: seq<Finding>)
    ensures |r| == |fs|
  {
    seq(|fs|, i requires 0 <= i < |fs| => Marked(fs[i], e))
  }

  function Count(fs: seq<Finding>): nat {
    if fs == [] then 0 else Count(fs[..|fs| - 1]) + if fs[|fs| - 1].expected.Some? then 1 else 0
  }

  /** The first of the gravest among the findings nobody expected. */
  function Worst(fs: seq<Finding>): Option<string> {
    if fs == [] then None else
    var before, f := Worst(fs[..|fs| - 1]), fs[|fs| - 1];
    if f.expected.Some? || (before.Some? && Rank(before.value) >= Rank(Spelled(f))) then before
    else Some(Spelled(f))
  }

  predicate Real(f: Finding, fs: seq<Finding>) {
    f in fs && f.expected.None?
  }

  lemma {:induction false} WorstMeaning(fs: seq<Finding>)
    ensures Worst(fs).None? ==> forall f :: !Real(f, fs)
    ensures Worst(fs).Some? ==>
              (exists f :: Real(f, fs) && Spelled(f) == Worst(fs).value) &&
              forall f :: Real(f, fs) ==> Rank(Spelled(f)) <= Rank(Worst(fs).value)
  {
    if fs == [] {
    } else {
      var init, last := fs[..|fs| - 1], fs[|fs| - 1];
      WorstMeaning(init);
      assert fs == init + [last];
      assert forall f :: Real(f, fs) <==> Real(f, init) || (f == last && f.expected.None?);
    }
  }

  /** What one call leaves behind. */
  datatype Verdict = Verdict(findings: seq<Finding>, severity: string, count: nat)

  function Annotated(fs: seq<Finding>, e: Env): Verdict {
    var sorted := Sort(MarkAll(fs, e), Before);
    Verdict(sorted, match Worst(sorted) case Some(w) => w case None => "ok", Count(MarkAll(fs, e)))
  }

  /** Graver first, then longer sustained. */
  ghost predicate GravestFirst(f: Finding, g: Finding) {
    var a, b := Rank(Spelled(f)), Rank(Spelled(g));
    a > b || (a == b && f.ticks >= g.ticks)
  }

  /** The spelling of the first of the gravest findings nobody expected; "ok" without any. */
  ghost predicate Overall(fs: seq<Finding>, severity: string) {
    if forall i :: 0 <= i < |fs| ==> fs[i].expected.Some? then severity == "ok"
    else exists i :: LeadsAt(fs, i) && severity == Spelled(fs[i])
  }

  ghost predicate LeadsAt(fs: seq<Finding>, i: int) {
    && 0 <= i < |fs| && fs[i].expected.None?
    && (forall j :: 0 <= j < |fs| && fs[j].expected.None? ==> Rank(Spelled(fs[j])) <= Rank(Spelled(fs[i])))
    && forall j :: 0 <= j < i && fs[j].expected.None? ==> Rank(Spelled(fs[j])) < Rank(Spelled(fs[i]))
  }

  /** As grave and as long sustained as this. */
  ghost function Ties(rank: int, ticks: real): Finding -> bool {
    (f: Finding) => Rank(Spelled(f)) == rank && f.ticks == ticks
  }

  /** The same findings, those that tie in the order they came in. */
  ghost predicate Reordered(was: seq<Finding>, now: seq<Finding>) {
    && multiset(now) == multiset(was)
    && forall rank, ticks :: Filter(now, Ties(rank, ticks)) == Filter(was, Ties(rank, ticks))
  }

  /** What a call must leave: each finding rightly marked, in order, the overall severity
      theirs, and the expected ones counted. */
  ghost predicate RightlyAnnotated(was: seq<Finding>, e: Env, now: Verdict) {
    && (exists marked :: AllMarked(was, marked, e) && Reordered(marked, now.findings))
    && (forall i, j :: 0 <= i < j < |now.findings| ==> GravestFirst(now.findings[i], now.findings[j]))
    && Overall(now.findings, now.severity)
    && now.count == |Filter(now.findings, (f: Finding) => f.expected.Some?)|
  }

  ghost predicate AllMarked(was: seq<Finding>, marked: seq<Finding>, e: Env) {
    |marked| == |was| && forall i :: 0 <= i < |was| ==> RightlyMarked(was[i], marked[i], e)
  }

  lemma LeadsOn(fs: seq<Finding>, f: Finding, i: int)
    requires LeadsAt(fs, i) && (f.expected.None? ==> Rank(Spelled(f)) <= Rank(Spelled(fs[i])))
    ensures LeadsAt(fs + [f], i)
  {
    assert forall j :: 0 <= j < |fs| ==> (fs + [f])[j] == fs[j];
  }

  lemma LeadsNow(fs: seq<Finding>, f: Finding)
    requires f.expected.None?
    requires forall j :: 0 <= j < |fs| && fs[j].expected.None? ==> Rank(Spelled(fs[j])) < Rank(Spelled(f))
    ensures LeadsAt(fs + [f], |fs|)
  {
    assert forall j :: 0 <= j < |fs| ==> (fs + [f])[j] == fs[j];
  }

  lemma {:induction false} WorstLeads(fs: seq<Finding>)
    ensures Worst(fs).None? <==> forall i :: 0 <= i < |fs| ==> fs[i].expected.Some?
    ensures Worst(fs).Some? ==> exists i :: LeadsAt(fs, i) && Spelled(fs[i]) == Worst(fs).value
  {
    if fs == [] {
    } else {
      var init, f := fs[..|fs| - 1], fs[|fs| - 1];
      WorstLeads(init);
      assert fs == init + [f];
      assert forall i :: 0 <= i < |init| ==> init[i] == fs[i];
      if Worst(init).Some? {
        var i :| LeadsAt(init, i) && Spelled(init[i]) == Worst(init).value;
        if f.expected.None? && Rank(Spelled(f)) > Rank(Spelled(init[i])) {
          LeadsNow(init, f);
        } else {
          LeadsOn(init, f, i);
        }
      } else if f.expected.None? {
        LeadsNow(init, f);
      }
    }
  }

  lemma {:induction false} CountFilters(fs: seq<Finding>)
    ensures Count(fs) == |Filter(fs, (f: Finding) => f.expected.Some?)|
  {
    if fs == [] {
    } else {
      CountFilters(fs[..|fs| - 1]);
    }
  }

  lemma SortReorders(fs: seq<Finding>)
    ensures Reordered(fs, Sort(fs, Before))
  {
    SortBag(fs, Before);
    BeforeIsOrder();
    forall rank, ticks ensures Filter(Sort(fs, Before), Ties(rank, ticks)) == Filter(fs, Ties(rank, ticks)) {
      SortStable(fs, Before, Ties(rank, ticks));
    }
  }

  lemma AnnotatedRightly(fs: seq<Finding>, e: Env)
    ensures RightlyAnnotated(fs, e, Annotated(fs, e))
  {
    var marked := MarkAll(fs, e);
    var sorted := Sort(marked, Before);
    forall i | 0 <= i < |fs| ensures RightlyMarked(fs[i], marked[i], e) {
      MarkedRightly(fs[i], e);
    }
    assert AllMarked(fs, marked, e);
    SortReorders(marked);
    BeforeIsOrder();
    SortOrdered(marked, Before);
    forall i, j | 0 <= i < j < |sorted| ensures GravestFirst(sorted[i], sorted[j]) {
      OrderedPair(sorted, Before, i, j);
    }
    WorstLeads(sorted);
    SameCount(marked, sorted);
    CountFilters(sorted);
  }

  class Report {
    var findings: seq<Finding>
    var severity: string
    var count: nat

    constructor (findings: seq<Finding>, severity: string)
      ensures this.findings == findings && this.severity == severity && count == 0
    {
      this.findings, this.severity, count := findings, severity, 0;
    }

    /** `annotate`, without the sentences. */
    method Annotate(e: Env)
      modifies this
      ensures Verdict(findings, severity, count) == Annotated(old(findings), e)
      ensures RightlyAnnotated(old(findings), e, Verdict(findings, severity, count))
    {
      AnnotatedRightly(findings, e);
      count := MarkFindings(e);
      findings := Sort(findings, Before);
      var worst := Worst(findings);
      severity := match worst case Some(w) => w case None => "ok";
    }

    /** The loop that rewrites the findings in place. */
    method MarkFindings(e: Env) returns (expected: nat)
      modifies this`findings
      ensures findings == MarkAll(old(findings), e) && expected == Count(findings)
    {
      ghost var before := findings;
      expected := 0;
      for i := 0 to |findings|
        invariant |findings| == |before| && findings == MarkAll(before[..i], e) + before[i..]
        invariant expected == Count(MarkAll(before[..i], e))
      {
        MarkNext(before, i, e);
        var f, hit := MarkOne(findings[i], e);
        findings := findings[i := f];
        expected := expected + if hit then 1 else 0;
      }
      assert before[..|before|] == before && before[|before|..] == [];
    }
  }

  /** The body of the loop. */
  method MarkOne(f: Finding, e: Env) returns (r: Finding, hit: bool)
    ensures r == Marked(f, e) && hit == IsExpected(f, e) && RightlyMarked(f, r, e)
  {
    MarkedRightly(f, e);
    var m := Match(f, e);
    r := f.(expected := None, overrun := None);
    hit := false;
    if !r.raw.Missing? {
      r := r.(severity := r.raw, raw := Missing);
    }
    if m.Some? {
      var (row, state) := m.value;
      if state == Active {
        r := r.(expected := Some(Described(row)), raw := Get(r.severity), severity := Text("info"));
        hit := true;
      } else {
        r := r.(overrun := Some((Described(row), MinutesPastEnd(row, e.clock))));
      }
    }
  }

  lemma MarkNext(fs: seq<Finding>, i: nat, e: Env)
    requires i < |fs|
    ensures (MarkAll(fs[..i], e) + fs[i..])[i] == fs[i]
    ensures (MarkAll(fs[..i], e) + fs[i..])[i := Marked(fs[i], e)] == MarkAll(fs[..i + 1], e) + fs[i + 1..]
    ensures Count(MarkAll(fs[..i + 1], e)) == Count(MarkAll(fs[..i], e)) + if IsExpected(fs[i], e) then 1 else 0
  {
    assert MarkAll(fs[..i + 1], e)[..i] == MarkAll(fs[..i], e);
  }

  // ------------------------------------------------------- nothing is left over

  lemma CancelOne(x: multiset<Finding>, y: multiset<Finding>, f: Finding)
    requires x + multiset{f} == y + multiset{f}
    ensures x == y
  {
    forall g ensures x[g] == y[g] {
      assert (x + multiset{f})[g] == (y + multiset{f})[g];
    }
  }

  /** The same findings in some order. */
  lemma Elsewhere(a: seq<Finding>, b: seq<Finding>) returns (j: nat)
    requires a != [] && multiset(a) == multiset(b)
    ensures j < |b| && b[j] == a[0] && multiset(a[1..]) == multiset(b[..j] + b[j + 1..])
  {
    assert a == [a[0]] + a[1..];
    assert a[0] in multiset(b);
    j :| 0 <= j < |b| && b[j] == a[0];
    var less := b[..j] + b[j + 1..];
    assert b == b[..j] + ([b[j]] + b[j + 1..]);
    assert multiset(b) == multiset(less) + multiset{a[0]};
    assert multiset(a) == multiset(a[1..]) + multiset{a[0]};
    CancelOne(multiset(a[1..]), multiset(less), a[0]);
  }

  lemma {:induction false} MarkedBag(a: seq<Finding>, b: seq<Finding>, e: Env)
    requires multiset(a) == multiset(b)
    ensures multiset(MarkAll(a, e)) == multiset(MarkAll(b, e))
  {
    if a == [] {
      assert |multiset(b)| == 0;
    } else {
      var j := Elsewhere(a, b);
      var less := b[..j] + b[j + 1..];
      MarkedBag(a[1..], less, e);
      assert MarkAll(a, e) == [Marked(a[0], e)] + MarkAll(a[1..], e);
      assert MarkAll(b, e) == MarkAll(b[..j], e) + [Marked(b[j], e)] + MarkAll(b[j + 1..], e);
      assert MarkAll(less, e) == MarkAll(b[..j], e) + MarkAll(b[j + 1..], e);
    }
  }

  lemma {:induction false} CountConcat(a: seq<Finding>, b: seq<Finding>)
    ensures Count(a + b) == Count(a) + Count(b)
  {
    if b == [] {
      assert a + b == a;
    } else {
      CountConcat(a, b[..|b| - 1]);
      assert (a + b)[..|a + b| - 1] == a + b[..|b| - 1];
    }
  }

  lemma {:induction false} SameCount(a: seq<Finding>, b: seq<Finding>)
    requires multiset(a) == multiset(b)
    ensures Count(a) == Count(b)
  {
    if a == [] {
      assert |multiset(b)| == 0;
    } else {
      var j := Elsewhere(a, b);
      SameCount(a[1..], b[..j] + b[j + 1..]);
      assert a == [a[0]] + a[1..] && b == b[..j] + ([b[j]] + b[j + 1..]);
      CountConcat([a[0]], a[1..]);
      CountConcat([b[j]], b[j + 1..]);
      CountConcat(b[..j], [b[j]] + b[j + 1..]);
      CountConcat(b[..j], b[j + 1..]);
    }
  }

  /** As every reader sees it: a missing severity and a null one are the same. */
  function Plain(f: Finding): Finding {
    f.(severity := Get(f.severity))
  }

  function PlainAll(fs: seq<Finding>): (r: seq<Finding>)
    ensures |r| == |fs|
  {
    seq(|fs|, i requires 0 <= i < |fs| => Plain(fs[i]))
  }

  lemma PlainTwice(f: Finding, first: Env, second: Env)
    ensures Plain(Marked(Plain(Marked(f, first)), second)) == Plain(Marked(f, second))
    ensures Plain(Marked(Plain(f), second)) == Plain(Marked(f, second))
  {
    var once := Plain(Marked(f, first));
    SameMatch(f, once, second.rows, second, Active);
    SameMatch(f, once, second.rows, second, Overrun);
    SameMatch(f, Plain(f), second.rows, second, Active);
    SameMatch(f, Plain(f), second.rows, second, Overrun);
  }

  lemma {:induction false} PlainBag(a: seq<Finding>, b: seq<Finding>)
    requires multiset(a) == multiset(b)
    ensures multiset(PlainAll(a)) == multiset(PlainAll(b))
  {
    if a == [] {
      assert |multiset(b)| == 0;
    } else {
      var j := Elsewhere(a, b);
      var less := b[..j] + b[j + 1..];
      PlainBag(a[1..], less);
      assert PlainAll(a) == [Plain(a[0])] + PlainAll(a[1..]);
      assert PlainAll(b) == PlainAll(b[..j]) + [Plain(b[j])] + PlainAll(b[j + 1..]);
      assert PlainAll(less) == PlainAll(b[..j]) + PlainAll(b[j + 1..]);
    }
  }

  lemma {:induction false} PlainCounts(fs: seq<Finding>)
    ensures Count(PlainAll(fs)) == Count(fs)
  {
    if fs == [] {
    } else {
      PlainCounts(fs[..|fs| - 1]);
      assert PlainAll(fs)[..|fs| - 1] == PlainAll(fs[..|fs| - 1]);
    }
  }

  /** The findings after any number of calls, each with its own time and list. */
  ghost function Through(fs: seq<Finding>, envs: seq<Env>): seq<Finding> {
    if envs == [] then fs else Annotated(Through(fs, envs[..|envs| - 1]), envs[|envs| - 1]).findings
  }

  lemma {:induction false} ThroughBag(fs: seq<Finding>, envs: seq<Env>)
    requires envs != []
    ensures multiset(PlainAll(Through(fs, envs))) == multiset(PlainAll(MarkAll(fs, envs[|envs| - 1])))
  {
    var init, e := envs[..|envs| - 1], envs[|envs| - 1];
    var before := Through(fs, init);
    SortBag(MarkAll(before, e), Before);
    PlainBag(Through(fs, envs), MarkAll(before, e));
    if init != [] {
      var f := init[|init| - 1];
      ThroughBag(fs, init);
      Passes(before, fs, f, e);
    }
  }

  lemma Passes(before: seq<Finding>, fs: seq<Finding>, f: Env, e: Env)
    requires multiset(PlainAll(before)) == multiset(PlainAll(MarkAll(fs, f)))
    ensures multiset(PlainAll(MarkAll(before, e))) == multiset(PlainAll(MarkAll(fs, e)))
  {
    var a, b := PlainAll(before), PlainAll(MarkAll(fs, f));
    MarkedBag(a, b, e);
    PlainBag(MarkAll(a, e), MarkAll(b, e));
    forall i | 0 <= i < |before| ensures PlainAll(MarkAll(a, e))[i] == PlainAll(MarkAll(before, e))[i] {
      PlainTwice(before[i], e, e);
    }
    assert PlainAll(MarkAll(a, e)) == PlainAll(MarkAll(before, e));
    forall i | 0 <= i < |fs| ensures PlainAll(MarkAll(b, e))[i] == PlainAll(MarkAll(fs, e))[i] {
      PlainTwice(fs[i], f, e);
    }
    assert PlainAll(MarkAll(b, e)) == PlainAll(MarkAll(fs, e));
  }

  // ------------------------------------------------- what decides the severity

  /** What no call ever changes of a finding. */
  function Core(f: Finding): Finding {
    Plain(Restored(f))
  }

  function Cores(fs: seq<Finding>): (r: seq<Finding>)
    ensures |r| == |fs|
  {
    seq(|fs|, i requires 0 <= i < |fs| => Core(fs[i]))
  }

  /** The rank a call sorts a finding by. */
  function Grade(k: Finding, e: Env): nat {
    if IsExpected(k, e) then 1 else Rank(Spelled(k))
  }

  predicate NotBehind(k: Finding, g: Finding, e: Env) {
    Grade(k, e) > Grade(g, e) || (Grade(k, e) == Grade(g, e) && k.ticks >= g.ticks)
  }

  /** The finding stands in the report as one call of `e` left it. */
  predicate Shown(f: Finding, e: Env) {
    && Rank(Spelled(f)) == Grade(Core(f), e)
    && (f.expected.Some? <==> IsExpected(Core(f), e))
    && (f.expected.None? ==> Spelled(f) == Spelled(Core(f)))
  }

  lemma CoreOfMarked(f: Finding, e: Env)
    ensures Core(Marked(f, e)) == Core(f) && Shown(Marked(f, e), e)
  {
    SameMatch(f, Core(f), e.rows, e, Active);
    SameMatch(f, Core(f), e.rows, e, Overrun);
  }

  function FirstOf(t: seq<Finding>, a: set<Finding>): Option<Finding> {
    if t == [] then None else if t[0] in a then Some(t[0]) else FirstOf(t[1..], a)
  }

  lemma {:induction false} FirstOfAppend(t: seq<Finding>, k: Finding, a: set<Finding>)
    ensures FirstOf(t + [k], a) ==
            if FirstOf(t, a).Some? then FirstOf(t, a) else if k in a then Some(k) else None
  {
    if t == [] {
      assert ([] + [k])[1..] == [];
    } else {
      FirstOfAppend(t[1..], k, a);
      assert (t + [k])[1..] == t[1..] + [k];
    }
  }

  lemma FirstOfCons(k: Finding, t: seq<Finding>, a: set<Finding>)
    ensures FirstOf([k] + t, a) == if k in a then Some(k) else FirstOf(t, a)
  {
    assert ([k] + t)[1..] == t;
  }

  lemma {:induction false} FirstOfMember(t: seq<Finding>, a: set<Finding>)
    ensures FirstOf(t, a).None? <==> forall k :: k in t ==> k !in a
    ensures FirstOf(t, a).Some? ==> FirstOf(t, a).value in t && FirstOf(t, a).value in a
  {
    if t == [] {
    } else {
      FirstOfMember(t[1..], a);
      assert t == [t[0]] + t[1..];
    }
  }

  /** The foremost of some findings in the eyes of one call; of equals, the first. */
  function LeadOf(t: seq<Finding>, a: set<Finding>, e: Env): Option<Finding> {
    if t == [] then None else
    var lead, k := LeadOf(t[..|t| - 1], a, e), t[|t| - 1];
    if k !in a || (lead.Some? && NotBehind(lead.value, k, e)) then lead else Some(k)
  }

  lemma {:induction false} LeadMember(t: seq<Finding>, a: set<Finding>, e: Env)
    ensures LeadOf(t, a, e).None? <==> forall k :: k in t ==> k !in a
    ensures LeadOf(t, a, e).Some? ==>
              LeadOf(t, a, e).value in t && LeadOf(t, a, e).value in a &&
              forall k :: k in t && k in a ==> NotBehind(LeadOf(t, a, e).value, k, e)
  {
    if t == [] {
    } else {
      LeadMember(t[..|t| - 1], a, e);
      assert t == t[..|t| - 1] + [t[|t| - 1]];
    }
  }

  /** Of the foremost, the lead comes first. */
  lemma {:induction false} LeadIsFirst(t: seq<Finding>, a: set<Finding>, e: Env, g: Finding)
    requires LeadOf(t, a, e).Some? && g in t && g in a && NotBehind(g, LeadOf(t, a, e).value, e)
    ensures FirstOf(t, {LeadOf(t, a, e).value, g}) == Some(LeadOf(t, a, e).value)
  {
    var init, k := t[..|t| - 1], t[|t| - 1];
    var lead := LeadOf(t, a, e).value;
    assert t == init + [k];
    FirstOfAppend(init, k, {lead, g});
    FirstOfMember(init, {lead, g});
    LeadMember(init, a, e);
    if LeadOf(init, a, e) == Some(lead) {
      if g in init {
        LeadIsFirst(init, a, e, g);
      }
    } else {
      assert lead == k && lead !in init && g !in init;
    }
  }

  /** The foremost of equals is the first of them. */
  lemma {:induction false} LeadOfEquals(t: seq<Finding>, x: Finding, y: Finding, e: Env)
    requires NotBehind(x, y, e) && NotBehind(y, x, e)
    ensures LeadOf(t, {x, y}, e) == FirstOf(t, {x, y})
  {
    if t == [] {
    } else {
      var init, k := t[..|t| - 1], t[|t| - 1];
      LeadOfEquals(init, x, y, e);
      FirstOfAppend(init, k, {x, y});
      FirstOfMember(init, {x, y});
      assert t == init + [k];
    }
  }

  // One call turns "foremost" into "first".

  lemma BeforeIsOrder()
    ensures TotalOrder(Before)
  {
  }

  lemma CoresCons(f: Finding, s: seq<Finding>, a: set<Finding>)
    ensures FirstOf(Cores([f] + s), a) == if Core(f) in a then Some(Core(f)) else FirstOf(Cores(s), a)
  {
    assert Cores([f] + s) == [Core(f)] + Cores(s);
    FirstOfCons(Core(f), Cores(s), a);
  }

  /** The first of them stands behind the head of an ordered list. */
  lemma HeadNotBehind(s: seq<Finding>, a: set<Finding>, e: Env)
    requires s != [] && Ordered(s, Before) && (forall g :: g in s ==> Shown(g, e)) && FirstOf(Cores(s), a).Some?
    ensures NotBehind(Core(s[0]), FirstOf(Cores(s), a).value, e)
  {
    FirstOfMember(Cores(s), a);
    var i :| 0 <= i < |s| && Core(s[i]) == FirstOf(Cores(s), a).value;
    assert s[i] in s && s[0] in s;
    if i > 0 {
      assert s[i] == s[1..][i - 1];
      assert Before(s[0], s[i]);
    }
  }

  lemma {:induction false} InsertLeads(f: Finding, s: seq<Finding>, a: set<Finding>, e: Env)
    requires Ordered(s, Before) && Shown(f, e) && forall g :: g in s ==> Shown(g, e)
    ensures FirstOf(Cores(Insert(f, s, Before)), a) ==
            var lead := FirstOf(Cores(s), a);
            if Core(f) !in a || (lead.Some? && NotBehind(lead.value, Core(f), e)) then lead else Some(Core(f))
  {
    if s == [] {
      CoresCons(f, [], a);
    } else {
      assert s == [s[0]] + s[1..] && s[0] in s;
      CoresCons(s[0], s[1..], a);
      if Before(s[0], f) {
        InsertLeads(f, s[1..], a, e);
        CoresCons(s[0], Insert(f, s[1..], Before), a);
      } else {
        CoresCons(f, s, a);
        if FirstOf(Cores(s), a).Some? {
          HeadNotBehind(s, a, e);
        }
      }
    }
  }

  lemma CoresAppend(s: seq<Finding>, f: Finding)
    ensures Cores(s + [f]) == Cores(s) + [Core(f)]
  {
  }

  lemma CoresMembers(a: seq<Finding>, b: seq<Finding>)
    requires forall f :: f in a ==> f in b
    ensures forall k :: k in Cores(a) ==> k in Cores(b)
  {
    forall k | k in Cores(a) ensures k in Cores(b) {
      var i :| 0 <= i < |a| && k == Core(a[i]);
      assert a[i] in a;
      var j :| 0 <= j < |b| && b[j] == a[i];
      assert Cores(b)[j] == k;
    }
  }

  lemma CoresMarked(s: seq<Finding>, e: Env)
    ensures Cores(MarkAll(s, e)) == Cores(s) && forall f :: f in MarkAll(s, e) ==> Shown(f, e)
  {
    forall i | 0 <= i < |s| ensures Core(MarkAll(s, e)[i]) == Core(s[i]) && Shown(MarkAll(s, e)[i], e) {
      CoreOfMarked(s[i], e);
    }
  }

  lemma ShownAll(s: seq<Finding>, e: Env)
    ensures forall f :: f in Sort(MarkAll(s, e), Before) ==> Shown(f, e)
    ensures forall k :: k in Cores(Sort(MarkAll(s, e), Before)) <==> k in Cores(s)
  {
    CoresMarked(s, e);
    SortMembers(MarkAll(s, e), Before);
    CoresMembers(Sort(MarkAll(s, e), Before), MarkAll(s, e));
    CoresMembers(MarkAll(s, e), Sort(MarkAll(s, e), Before));
  }

  lemma SortLast(s: seq<Finding>, f: Finding, e: Env)
    ensures Sort(MarkAll(s + [f], e), Before) == Insert(Marked(f, e), Sort(MarkAll(s, e), Before), Before)
    ensures Cores(s + [f])[..|s|] == Cores(s) && Cores(s + [f])[|s|] == Core(f)
  {
    assert MarkAll(s + [f], e)[..|s|] == MarkAll(s, e);
  }

  lemma MarkedInserts(s: seq<Finding>, f: Finding, a: set<Finding>, e: Env)
    ensures FirstOf(Cores(Insert(Marked(f, e), Sort(MarkAll(s, e), Before), Before)), a) ==
            var lead := FirstOf(Cores(Sort(MarkAll(s, e), Before)), a);
            if Core(f) !in a || (lead.Some? && NotBehind(lead.value, Core(f), e)) then lead else Some(Core(f))
  {
    BeforeIsOrder();
    SortOrdered(MarkAll(s, e), Before);
    ShownAll(s, e);
    CoreOfMarked(f, e);
    InsertLeads(Marked(f, e), Sort(MarkAll(s, e), Before), a, e);
  }

  lemma {:induction false} SortLeads(s: seq<Finding>, a: set<Finding>, e: Env)
    ensures FirstOf(Cores(Sort(MarkAll(s, e), Before)), a) == LeadOf(Cores(s), a, e)
  {
    if s == [] {
    } else {
      var init, f := s[..|s| - 1], s[|s| - 1];
      SortLeads(init, a, e);
      assert s == init + [f];
      SortLast(init, f, e);
      MarkedInserts(init, f, a, e);
    }
  }

  /** The findings one call leaves unexpected. */
  function Open(t: seq<Finding>, e: Env): set<Finding> {
    set k | k in t && !IsExpected(k, e)
  }

  function Word(lead: Option<Finding>): string {
    match lead case Some(k) => Spelled(k) case None => "ok"
  }

  /** Read off the finding: it is open exactly when nobody expected it. */
  ghost predicate ReadsOpen(f: Finding, a: set<Finding>) {
    (f.expected.None? <==> Core(f) in a) && (f.expected.None? ==> Spelled(f) == Spelled(Core(f)))
  }

  ghost predicate AllReadOpen(u: seq<Finding>, a: set<Finding>) {
    forall f :: f in u ==> ReadsOpen(f, a)
  }

  lemma FirstOfCoresLast(s: seq<Finding>, f: Finding, a: set<Finding>)
    ensures FirstOf(Cores(s + [f]), a) ==
            if FirstOf(Cores(s), a).Some? then FirstOf(Cores(s), a) else if Core(f) in a then Some(Core(f)) else None
  {
    CoresAppend(s, f);
    FirstOfAppend(Cores(s), Core(f), a);
  }

  lemma {:induction false} WorstIsFirst(u: seq<Finding>, a: set<Finding>)
    requires Ordered(u, Before) && AllReadOpen(u, a)
    ensures Worst(u) == match FirstOf(Cores(u), a) case Some(k) => Some(Spelled(k)) case None => None
  {
    if u == [] {
    } else {
      var init, f := u[..|u| - 1], u[|u| - 1];
      assert u == init + [f];
      OrderedLast(u, Before);
      WorstIsFirst(init, a);
      FirstOfCoresLast(init, f, a);
      WorstStays(init, f);
      assert ReadsOpen(f, a);
    }
  }

  lemma WorstStays(s: seq<Finding>, f: Finding)
    requires Closes(s, f, Before)
    ensures Worst(s + [f]) == if Worst(s).Some? then Worst(s) else if f.expected.Some? then None else Some(Spelled(f))
  {
    WorstMeaning(s);
    assert (s + [f])[..|s|] == s;
    if Worst(s).Some? {
      var g :| Real(g, s) && Spelled(g) == Worst(s).value;
      assert Before(g, f);
    }
  }

  /** The report's word is that of the foremost unexpected finding. */
  lemma SeverityIsLead(s: seq<Finding>, e: Env)
    ensures Annotated(s, e).severity == Word(LeadOf(Cores(s), Open(Cores(s), e), e))
  {
    var t := Cores(s);
    var u := Sort(MarkAll(s, e), Before);
    BeforeIsOrder();
    SortOrdered(MarkAll(s, e), Before);
    ShownAll(s, e);
    forall f | f in u ensures ReadsOpen(f, Open(t, e)) {
      var i :| 0 <= i < |u| && u[i] == f;
      assert Cores(u)[i] == Core(f);
    }
    WorstIsFirst(u, Open(t, e));
    SortLeads(s, Open(t, e), e);
  }

  /** Unexpected, of the gravest rank, and most ticks of those. */
  ghost predicate Foremost(t: seq<Finding>, e: Env, k: Finding) {
    k in Open(t, e) && forall g :: g in Open(t, e) ==> NotBehind(k, g, e)
  }

  /** The foremost unexpected findings are spelled alike. */
  ghost predicate Alike(t: seq<Finding>, e: Env) {
    forall k, g :: Foremost(t, e, k) && Foremost(t, e, g) ==> Spelled(k) == Spelled(g)
  }

  /** Some list expects `y` and not `x`. */
  ghost predicate Separable(y: Finding, x: Finding) {
    y.key != x.key || exists n :: n in y.names && n !in x.names && n != ""
  }

  /** An earlier list could have put `y` before every foremost finding that has the
      report's word: each is behind it already or can be told from it. */
  ghost predicate Overtakes(t: seq<Finding>, e: Env, y: Finding) {
    && Foremost(t, e, y)
    && Spelled(y) != Word(LeadOf(t, Open(t, e), e))
    && forall x :: Foremost(t, e, x) && Spelled(x) == Word(LeadOf(t, Open(t, e), e)) ==>
         FirstOf(t, {x, y}) == Some(y) || Separable(y, x)
  }

  lemma {:induction false} ThroughKeeps(fs: seq<Finding>, before: seq<Env>)
    ensures forall k :: k in Cores(Through(fs, before)) <==> k in Cores(fs)
  {
    if before == [] {
    } else {
      ThroughKeeps(fs, before[..|before| - 1]);
      ShownAll(Through(fs, before[..|before| - 1]), before[|before| - 1]);
    }
  }

  lemma LeadIsForemost(fs: seq<Finding>, before: seq<Env>, e: Env)
    ensures Open(Cores(Through(fs, before)), e) == Open(Cores(fs), e)
    ensures var t, lead := Cores(fs), LeadOf(Cores(Through(fs, before)), Open(Cores(fs), e), e);
            (lead.Some? ==> Foremost(t, e, lead.value)) &&
            (lead.None? ==> forall k :: !Foremost(t, e, k))
  {
    ThroughKeeps(fs, before);
    LeadMember(Cores(Through(fs, before)), Open(Cores(fs), e), e);
    assert Open(Cores(Through(fs, before)), e) == Open(Cores(fs), e);
  }

  /** A finding ahead of another stays ahead through a call that does not prefer the other. */
  lemma StaysAhead(s: seq<Finding>, e: Env, x: Finding, y: Finding)
    requires x in Cores(s) && NotBehind(x, y, e)
    requires FirstOf(Cores(s), {x, y}) == Some(x) || !NotBehind(y, x, e)
    ensures FirstOf(Cores(Annotated(s, e).findings), {x, y}) == Some(x)
  {
    SortLeads(s, {x, y}, e);
    LeadMember(Cores(s), {x, y}, e);
    if NotBehind(y, x, e) {
      LeadOfEquals(Cores(s), x, y, e);
    }
  }

  lemma UnknownWords(t: seq<Finding>, e: Env, x: Finding, y: Finding)
    requires Foremost(t, e, x) && Foremost(t, e, y) && Spelled(x) != Spelled(y)
    ensures Rank(Spelled(x)) == Rank(Spelled(y)) == 0 && x.ticks == y.ticks
  {
    assert NotBehind(x, y, e) && NotBehind(y, x, e);
  }

  /** No list expects `y` without `x`. */
  lemma {:induction false} InseparableHits(y: Finding, x: Finding, rows: seq<Row>, e: Env)
    requires !Separable(y, x) && First(rows, y, e, Active).Some?
    ensures First(rows, x, e, Active).Some?
  {
    if Hit(rows[0], y, e, Active) {
      assert Hit(rows[0], x, e, Active);
    } else if !Hit(rows[0], x, e, Active) {
      InseparableHits(y, x, rows[1..], e);
    }
  }

  lemma {:induction false} NeverOvertaken(fs: seq<Finding>, before: seq<Env>, x: Finding, y: Finding)
    requires x in Cores(fs) && !Separable(y, x) && FirstOf(Cores(fs), {x, y}) == Some(x)
    requires Rank(Spelled(x)) == Rank(Spelled(y)) == 0 && x.ticks == y.ticks
    ensures FirstOf(Cores(Through(fs, before)), {x, y}) == Some(x)
  {
    if before == [] {
    } else {
      var init, e := before[..|before| - 1], before[|before| - 1];
      NeverOvertaken(fs, init, x, y);
      ThroughKeeps(fs, init);
      if IsExpected(y, e) {
        InseparableHits(y, x, e.rows, e);
      }
      StaysAhead(Through(fs, init), e, x, y);
    }
  }

  /** What keeps a finding from overtaking. */
  lemma Blocker(t: seq<Finding>, e: Env, y: Finding) returns (x: Finding)
    requires Foremost(t, e, y) && Spelled(y) != Word(LeadOf(t, Open(t, e), e)) && !Overtakes(t, e, y)
    ensures Foremost(t, e, x) && Spelled(x) == Word(LeadOf(t, Open(t, e), e)) && x in t && y in t
    ensures FirstOf(t, {x, y}) == Some(x) && !Separable(y, x)
  {
    x :| Foremost(t, e, x) && Spelled(x) == Word(LeadOf(t, Open(t, e), e)) &&
    FirstOf(t, {x, y}) != Some(y) && !Separable(y, x);
    FirstOfMember(t, {x, y});
  }

  /** The lead is first of the foremost. */
  lemma LeadFirstOfForemost(u: seq<Finding>, t: seq<Finding>, e: Env, x: Finding)
    requires Foremost(t, e, x) && x in u && LeadOf(u, Open(t, e), e).Some?
    requires Foremost(t, e, LeadOf(u, Open(t, e), e).value)
    ensures FirstOf(u, {LeadOf(u, Open(t, e), e).value, x}) == Some(LeadOf(u, Open(t, e), e).value)
  {
    LeadIsFirst(u, Open(t, e), e, x);
  }

  /** Without a finding that can overtake, no past changes the word. */
  lemma PastCannotMatter(fs: seq<Finding>, before: seq<Env>, e: Env)
    requires forall y :: !Overtakes(Cores(fs), e, y)
    ensures Annotated(Through(fs, before), e).severity == Annotated(fs, e).severity
  {
    var t, u := Cores(fs), Cores(Through(fs, before));
    SeverityIsLead(fs, e);
    SeverityIsLead(Through(fs, before), e);
    LeadIsForemost(fs, before, e);
    LeadIsForemost(fs, [], e);
    var lead, now := LeadOf(t, Open(t, e), e), LeadOf(u, Open(t, e), e);
    if now.Some? && Spelled(now.value) != Word(lead) {
      var y := now.value;
      var x := Blocker(t, e, y);
      assert {x, y} == {y, x};
      UnknownWords(t, e, x, y);
      ThroughKeeps(fs, before);
      LeadFirstOfForemost(u, t, e, x);
      NeverOvertaken(fs, before, x, y);
    }
  }

  /** A list that expects `y`, and not `x` where some list can. */
  ghost function Preferring(y: Finding, x: Finding): Env {
    var culprit := if y.key == x.key && Separable(y, x)
                   then var n :| n in y.names && n !in x.names && n != ""; n else "";
    Env("", [Row(0, "*", y.key, culprit, "", Always, {})], Clock(0, 0))
  }

  lemma PreferringHits(y: Finding, x: Finding)
    ensures IsExpected(y, Preferring(y, x)) && (Separable(y, x) ==> !IsExpected(x, Preferring(y, x)))
  {
    var e := Preferring(y, x);
    assert Hit(e.rows[0], y, e, Active);
    FirstMeaning(e.rows, x, e, Active);
  }

  ghost function PreferringAll(y: Finding, xs: seq<Finding>): seq<Env> {
    if xs == [] then [] else PreferringAll(y, xs[..|xs| - 1]) + [Preferring(y, xs[|xs| - 1])]
  }

  lemma PreferringMoves(s: seq<Finding>, last: Finding, x: Finding, y: Finding)
    requires y in Cores(s) && (FirstOf(Cores(s), {x, y}) == Some(y) || (x == last && Separable(y, x)))
    requires Rank(Spelled(x)) == Rank(Spelled(y)) == 0 && x.ticks == y.ticks
    ensures FirstOf(Cores(Annotated(s, Preferring(y, last)).findings), {x, y}) == Some(y)
  {
    assert {x, y} == {y, x};
    PreferringHits(y, last);
    StaysAhead(s, Preferring(y, last), y, x);
  }

  lemma {:induction false} Overtaken(fs: seq<Finding>, xs: seq<Finding>, x: Finding, y: Finding)
    requires y in Cores(fs) && (FirstOf(Cores(fs), {x, y}) == Some(y) || (x in xs && Separable(y, x)))
    requires Rank(Spelled(x)) == Rank(Spelled(y)) == 0 && x.ticks == y.ticks
    ensures FirstOf(Cores(Through(fs, PreferringAll(y, xs))), {x, y}) == Some(y)
  {
    if xs == [] {
    } else {
      var init, last := xs[..|xs| - 1], xs[|xs| - 1];
      var before := PreferringAll(y, init);
      assert (before + [Preferring(y, last)])[..|before|] == before && xs == init + [last];
      ThroughKeeps(fs, before);
      if !(x == last && Separable(y, x)) {
        Overtaken(fs, init, x, y);
      }
      PreferringMoves(Through(fs, before), last, x, y);
    }
  }

  /** With one, some past does: prefer it to each of the others in turn. */
  lemma PastCanMatter(fs: seq<Finding>, e: Env, y: Finding)
    requires Overtakes(Cores(fs), e, y)
    ensures Annotated(Through(fs, PreferringAll(y, Cores(fs))), e).severity != Annotated(fs, e).severity
  {
    var t, before := Cores(fs), PreferringAll(y, Cores(fs));
    var u := Cores(Through(fs, before));
    SeverityIsLead(fs, e);
    SeverityIsLead(Through(fs, before), e);
    LeadIsForemost(fs, before, e);
    LeadIsForemost(fs, [], e);
    var lead, now := LeadOf(t, Open(t, e), e), LeadOf(u, Open(t, e), e);
    if Word(now) == Word(lead) {
      var x := now.value;
      UnknownWords(t, e, x, y);
      Overtaken(fs, t, x, y);
      ThroughKeeps(fs, before);
      LeadFirstOfForemost(u, t, e, y);
    }
  }

  /** The overall severity depends on earlier calls exactly when one of the foremost
      unexpected findings, spelled differently from the report's word, can overtake all
      that have it. */
  lemma PastMatters(fs: seq<Finding>, e: Env)
    ensures (exists before :: Annotated(Through(fs, before), e).severity != Annotated(fs, e).severity) <==>
            (exists y :: Overtakes(Cores(fs), e, y))
  {
    if y :| Overtakes(Cores(fs), e, y) {
      PastCanMatter(fs, e, y);
    } else {
      forall before ensures Annotated(Through(fs, before), e).severity == Annotated(fs, e).severity {
        PastCannotMatter(fs, before, e);
      }
    }
  }

  /** After any sequence of calls, the findings, the expected count and (when the foremost
      unexpected findings are spelled alike) the overall severity are those of a single
      call on the original report with the latest time and list. */
  lemma NoResidue(fs: seq<Finding>, before: seq<Env>, e: Env)
    ensures var many, once := Annotated(Through(fs, before), e), Annotated(fs, e);
            multiset(PlainAll(many.findings)) == multiset(PlainAll(once.findings)) && many.count == once.count &&
            (Alike(Cores(fs), e) ==> many.severity == once.severity)
  {
    var all, single := MarkAll(Through(fs, before), e), MarkAll(fs, e);
    assert (before + [e])[..|before|] == before;
    ThroughBag(fs, before + [e]);
    SortBag(all, Before);
    SortBag(single, Before);
    PlainBag(Sort(all, Before), all);
    PlainBag(Sort(single, Before), single);
    SameCount(PlainAll(all), PlainAll(single));
    PlainCounts(all);
    PlainCounts(single);
    if Alike(Cores(fs), e) {
      LeadIsForemost(fs, [], e);
      PastCannotMatter(fs, before, e);
    }
  }

  /** Otherwise the word can depend on the past: two findings of no known gravity keep
      the order an earlier pass left them in, and the first gives the report its name. */
  lemma OrderRemembered()
    ensures exists fs, first: Env, e: Env ::
              Annotated(Through(fs, [first]), e).severity != Annotated(fs, e).severity
  {
    var odd, ok := Quiet("a", "odd"), Quiet("b", "ok");
    var first, e := Env("n", [Row(1, "*", "b", "", "", Always, {})], Clock(0, 0)), Env("n", [], Clock(0, 0));
    ExampleFirst(first, e);
    ExampleSecond(e);
    assert Annotated([odd, ok], e).severity == "odd";
    assert Annotated(Through([odd, ok], [first]), e).severity == "ok";
  }

  /** The first pass moves the expected finding to the front... */
  lemma ExampleFirst(first: Env, e: Env)
    requires first == Env("n", [Row(1, "*", "b", "", "", Always, {})], Clock(0, 0)) && e.rows == []
    ensures var odd, ok := Quiet("a", "odd"), Quiet("b", "ok");
            Through([odd, ok], [first]) == [Marked(ok, first), odd] && Marked(Marked(ok, first), e) == ok
  {
    var odd, ok := Quiet("a", "odd"), Quiet("b", "ok");
    ExampleMarks(first, e);
    assert MarkAll([odd, ok], first) == [odd, Marked(ok, first)];
    PairSorted(odd, Marked(ok, first));
    assert [first][..0] == [];
  }

  /** ... where it still is, unmarked again, when the second names the report. */
  lemma ExampleSecond(e: Env)
    requires e.rows == []
    ensures var odd, ok := Quiet("a", "odd"), Quiet("b", "ok");
            Annotated([odd, ok], e).severity == "odd" &&
            forall f :: Marked(f, e) == ok ==> Annotated([f, odd], e).severity == "ok"
  {
    var odd, ok := Quiet("a", "odd"), Quiet("b", "ok");
    assert forall f :: Marked(f, e) == Restored(f);
    assert MarkAll([odd, ok], e) == [odd, ok];
    PairSorted(ok, odd);
    PairSorted(odd, ok);
    PairWorst(ok, odd);
    PairWorst(odd, ok);
    forall f | Marked(f, e) == ok ensures Annotated([f, odd], e).severity == "ok" {
      assert MarkAll([f, odd], e) == [ok, odd];
    }
  }

  function Quiet(key: string, severity: string): Finding {
    Finding(key, {}, Text(severity), Missing, None, None, 1.0, "")
  }

  lemma ExampleMarks(first: Env, e: Env)
    requires first == Env("n", [Row(1, "*", "b", "", "", Always, {})], Clock(0, 0)) && e.rows == []
    ensures Marked(Quiet("a", "odd"), first) == Quiet("a", "odd")
    ensures Marked(Quiet("b", "ok"), first).severity == Text("info")
    ensures Marked(Marked(Quiet("b", "ok"), first), e) == Quiet("b", "ok")
    ensures forall f :: Marked(f, e) == Restored(f)
  {
    var odd, ok := Quiet("a", "odd"), Quiet("b", "ok");
    FirstMeaning(first.rows, odd, first, Active);
    FirstMeaning(first.rows, odd, first, Overrun);
    assert Hit(first.rows[0], ok, first, Active);
  }

  lemma PairSorted(f: Finding, g: Finding)
    ensures Sort([f, g], Before) == if Before(f, g) then [f, g] else [g, f]
  {
    assert [f, g][..1] == [f] && [f][..0] == [];
    assert Sort([f], Before) == Insert(f, [], Before) == [f];
    assert [f][1..] == [] && Insert(g, [], Before) == [g];
    assert Insert(g, [f], Before) == if Before(f, g) then [f] + [g] else [g] + [f];
  }

  lemma PairWorst(f: Finding, g: Finding)
    requires f.expected.None? && g.expected.None? && Rank(Spelled(f)) == Rank(Spelled(g))
    ensures Worst([f, g]) == Some(Spelled(f))
  {
    assert [f, g][..1] == [f] && [f][..0] == [];
    assert Worst([f]) == Some(Spelled(f));
  }
}
