/** Which version each commit is listed under (`_bumps`, `_parse`): one pass over the log,
    newest first, against what `version.json` held after each commit. */
module Changelog {
  import opened Prelude

  /** What a commit's diff of version.json says: the version before and after. */
  datatype Bump = Bump(before: Option<string>, after: Option<string>)

  /** A matched line of the diff: removed or added, and the version on it. */
  datatype Line = Removed(version: string) | Added(version: string)

  /** A record of the log; None when it has too few fields. */
  datatype Commit = Commit(sha: string)

  datatype Entry = Entry(sha: string, version: Option<string>, bumpedTo: Option<string>)

  // ------------------------------------------------------------------ bumps

  function LastRemoved(lines: seq<Line>): Option<string> {
    if lines == [] then None
    else if lines[|lines| - 1].Removed? then Some(lines[|lines| - 1].version)
    else LastRemoved(lines[..|lines| - 1])
  }

  function LastAdded(lines: seq<Line>): Option<string> {
    if lines == [] then None
    else if lines[|lines| - 1].Added? then Some(lines[|lines| - 1].version)
    else LastAdded(lines[..|lines| - 1])
  }

  /** The version on the last line of a sign, if there is one. */
  ghost predicate LastOf(lines: seq<Line>, removed: bool, o: Option<string>) {
    match o
    case None => forall i :: 0 <= i < |lines| ==> lines[i].Removed? != removed
    case Some(v) =>
      exists i :: 0 <= i < |lines| && lines[i] == (if removed then Removed(v) else Added(v)) &&
                  forall j :: i < j < |lines| ==> lines[j].Removed? != removed
  }

  lemma {:induction false} LastRemovedIs(lines: seq<Line>)
    ensures LastOf(lines, true, LastRemoved(lines))
  {
    if lines == [] {
    } else {
      LastRemovedIs(lines[..|lines| - 1]);
      assert forall i :: 0 <= i < |lines| - 1 ==> lines[..|lines| - 1][i] == lines[i];
    }
  }

  lemma {:induction false} LastAddedIs(lines: seq<Line>)
    ensures LastOf(lines, false, LastAdded(lines))
  {
    if lines == [] {
    } else {
      LastAddedIs(lines[..|lines| - 1]);
      assert forall i :: 0 <= i < |lines| - 1 ==> lines[..|lines| - 1][i] == lines[i];
    }
  }

  /** The inner loop of `_bumps`. */
  method ReadDiff(lines: seq<Line>) returns (b: Bump)
    ensures b == Bump(LastRemoved(lines), LastAdded(lines))
    ensures LastOf(lines, true, b.before) && LastOf(lines, false, b.after)
  {
    LastRemovedIs(lines);
    LastAddedIs(lines);
    var before: Option<string> := None;
    var after: Option<string> := None;
    for i := 0 to |lines|
      invariant before == LastRemoved(lines[..i]) && after == LastAdded(lines[..i])
    {
      assert lines[..i + 1][..i] == lines[..i];
      match lines[i] {
        case Removed(v) => before := Some(v);
        case Added(v) => after := Some(v);
      }
    }
    assert lines[..|lines|] == lines;
    b := Bump(before, after);
  }

  function BumpsOf(records: seq<(string, seq<Line>)>): map<string, Bump> {
    if records == [] then map[] else
    var (sha, lines) := records[|records| - 1];
    BumpsOf(records[..|records| - 1])[sha := Bump(LastRemoved(lines), LastAdded(lines))]
  }

  ghost predicate LastRecord(records: seq<(string, seq<Line>)>, i: int, sha: string) {
    0 <= i < |records| && records[i].0 == sha && forall j :: i < j < |records| ==> records[j].0 != sha
  }

  /** For each commit in the file's log, what its diff (the last, if it is listed twice)
      removed last and added last. */
  ghost predicate ReadsAll(bumps: map<string, Bump>, records: seq<(string, seq<Line>)>) {
    forall sha ::
      && (sha in bumps <==> exists i :: LastRecord(records, i, sha))
      && forall i :: LastRecord(records, i, sha) ==> sha in bumps && ReadsDiff(bumps[sha], records[i].1)
  }

  ghost predicate ReadsDiff(b: Bump, lines: seq<Line>) {
    LastOf(lines, true, b.before) && LastOf(lines, false, b.after)
  }

  lemma {:induction false} BumpsRead(records: seq<(string, seq<Line>)>, sha: string)
    ensures sha in BumpsOf(records) <==> exists i :: LastRecord(records, i, sha)
    ensures forall i :: LastRecord(records, i, sha) ==>
              sha in BumpsOf(records) && ReadsDiff(BumpsOf(records)[sha], records[i].1)
  {
    if records == [] {
    } else {
      var init, k := records[..|records| - 1], |records| - 1;
      BumpsRead(init, sha);
      LastRemovedIs(records[k].1);
      LastAddedIs(records[k].1);
      if records[k].0 == sha {
        assert LastRecord(records, k, sha);
      } else {
        assert forall i :: LastRecord(records, i, sha) <==> LastRecord(init, i, sha);
      }
    }
  }

  /** `_bumps`. */
  method Bumps(records: seq<(string, seq<Line>)>) returns (bumps: map<string, Bump>)
    ensures bumps == BumpsOf(records) && ReadsAll(bumps, records)
  {
    forall sha
      ensures sha in BumpsOf(records) <==> exists i :: LastRecord(records, i, sha)
      ensures forall i :: LastRecord(records, i, sha) ==>
                sha in BumpsOf(records) && ReadsDiff(BumpsOf(records)[sha], records[i].1)
    {
      BumpsRead(records, sha);
    }
    bumps := map[];
    for i := 0 to |records|
      invariant bumps == BumpsOf(records[..i])
    {
      assert records[..i + 1][..i] == records[..i];
      var (sha, lines) := records[i];
      var b := ReadDiff(lines);
      bumps := bumps[sha := b];
    }
    assert records[..|records|] == records;
  }

  // ---------------------------------------------------------------- parsing

  function BumpAt(bumps: map<string, Bump>, c: Commit): Bump {
    if c.sha in bumps then bumps[c.sha] else Bump(None, None)
  }

  function Or(x: Option<string>, y: Option<string>): Option<string> {
    if x.Some? then x else y
  }

  /** The version carried past the commits so far. */
  function Carried(commits: seq<Commit>, bumps: map<string, Bump>, tip: Option<string>): Option<string> {
    if commits == [] then tip else
    var b := BumpAt(bumps, commits[|commits| - 1]);
    Or(b.before, Or(b.after, Carried(commits[..|commits| - 1], bumps, tip)))
  }

  function Entries(commits: seq<Commit>, bumps: map<string, Bump>, tip: Option<string>): (es: seq<Entry>)
    ensures |es| == |commits|
  {
    if commits == [] then [] else
    var init, c := commits[..|commits| - 1], commits[|commits| - 1];
    var b := BumpAt(bumps, c);
    Entries(init, bumps, tip) + [Entry(c.sha, Or(b.after, Carried(init, bumps, tip)), b.after)]
  }

  /** The commits among the records. */
  function Whole(records: seq<Option<Commit>>): seq<Commit> {
    if records == [] then [] else
    Whole(records[..|records| - 1]) +
    if records[|records| - 1].Some? then [records[|records| - 1].value] else []
  }

  lemma OneMoreCommit(done: seq<Commit>, c: Commit, bumps: map<string, Bump>, tip: Option<string>)
    ensures var b, version := BumpAt(bumps, c), Or(BumpAt(bumps, c).after, Carried(done, bumps, tip));
            Entries(done + [c], bumps, tip) == Entries(done, bumps, tip) + [Entry(c.sha, version, b.after)] &&
            Carried(done + [c], bumps, tip) == Or(b.before, version)
  {
    assert (done + [c])[..|done|] == done;
  }

  lemma OneMoreRecord(records: seq<Option<Commit>>, i: nat)
    requires i < |records|
    ensures Whole(records[..i + 1]) ==
            if records[i].Some? then Whole(records[..i]) + [records[i].value] else Whole(records[..i])
  {
    assert records[..i + 1][..i] == records[..i];
    assert Whole(records[..i]) + [] == Whole(records[..i]);
  }

  predicate IsWhole(record: Option<Commit>) {
    record.Some?
  }

  /** The commit's diff names a version. */
  ghost predicate NamesOne(bumps: map<string, Bump>, c: Commit) {
    c.sha in bumps && (bumps[c.sha].before.Some? || bumps[c.sha].after.Some?)
  }

  /** What is carried to commit i: of the nearest newer one that names a version, what its
      diff removed, or else what it added; the tip's, if none does. */
  ghost predicate CarriedTo(commits: seq<Commit>, bumps: map<string, Bump>, tip: Option<string>, i: nat,
                            version: Option<string>)
    requires i <= |commits|
  {
    if NoneNamed(commits, bumps, -1, i) then version == tip
    else exists j :: NearestNamed(commits, bumps, i, j) && LeftBy(bumps, commits[j], version)
  }

  /** What a commit's diff leaves for the older ones. */
  ghost predicate LeftBy(bumps: map<string, Bump>, c: Commit, version: Option<string>) {
    c.sha in bumps && var b := bumps[c.sha];
                      version == if b.before.Some? then b.before else b.after
  }

  ghost predicate NearestNamed(commits: seq<Commit>, bumps: map<string, Bump>, i: nat, j: int)
    requires i <= |commits|
  {
    0 <= j < i && NamesOne(bumps, commits[j]) && NoneNamed(commits, bumps, j, i)
  }

  /** None after commit j and before commit i names a version. */
  ghost predicate NoneNamed(commits: seq<Commit>, bumps: map<string, Bump>, j: int, i: nat)
    requires -1 <= j && i <= |commits|
  {
    forall k :: j < k < i ==> !NamesOne(bumps, commits[k])
  }

  /** The entry is the commit's: tagged with what its own diff added, or with what is
      carried to it. */
  ghost predicate EntryFor(e: Entry, commits: seq<Commit>, bumps: map<string, Bump>, tip: Option<string>, i: nat)
    requires i < |commits|
  {
    var own := if commits[i].sha in bumps then bumps[commits[i].sha].after else None;
    && e.sha == commits[i].sha && e.bumpedTo == own
    && (own.Some? ==> e.version == own)
    && (own.None? ==> CarriedTo(commits, bumps, tip, i, e.version))
  }

  /** One entry for each whole record, in order. */
  ghost predicate Lists(es: seq<Entry>, records: seq<Option<Commit>>, bumps: map<string, Bump>, tip: Option<string>) {
    var whole := Filter(records, IsWhole);
    && |es| == |whole|
    && exists commits: seq<Commit> ::
         && |commits| == |whole| && (forall i :: 0 <= i < |whole| ==> whole[i] == Some(commits[i]))
         && forall i :: 0 <= i < |commits| ==> EntryFor(es[i], commits, bumps, tip, i)
  }

  lemma {:induction false} WholeFilters(records: seq<Option<Commit>>)
    ensures var f, w := Filter(records, IsWhole), Whole(records);
            |f| == |w| && forall i :: 0 <= i < |f| ==> f[i] == Some(w[i])
  {
    if records == [] {
    } else {
      WholeFilters(records[..|records| - 1]);
    }
  }

  /** A commit that names a version is the nearest to the next one. */
  lemma CarriedFrom(commits: seq<Commit>, bumps: map<string, Bump>, tip: Option<string>, i: nat)
    requires i < |commits| && NamesOne(bumps, commits[i])
    ensures var b := bumps[commits[i].sha];
            CarriedTo(commits, bumps, tip, i + 1, if b.before.Some? then b.before else b.after)
  {
    var b := bumps[commits[i].sha];
    assert NearestNamed(commits, bumps, i + 1, i);
    assert LeftBy(bumps, commits[i], if b.before.Some? then b.before else b.after);
  }

  lemma NoneNamedPast(commits: seq<Commit>, bumps: map<string, Bump>, j: int, i: nat)
    requires -1 <= j < i < |commits| && !NamesOne(bumps, commits[i])
    ensures NoneNamed(commits, bumps, j, i + 1) <==> NoneNamed(commits, bumps, j, i)
  {
    if NoneNamed(commits, bumps, j, i) {
      forall k | j < k < i + 1 ensures !NamesOne(bumps, commits[k]) {
      }
    }
  }

  /** Past one that names none, the same is carried. */
  lemma CarriedPast(commits: seq<Commit>, bumps: map<string, Bump>, tip: Option<string>, i: nat,
                    version: Option<string>)
    requires i < |commits| && !NamesOne(bumps, commits[i]) && CarriedTo(commits, bumps, tip, i, version)
    ensures CarriedTo(commits, bumps, tip, i + 1, version)
  {
    NoneNamedPast(commits, bumps, -1, i);
    if !NoneNamed(commits, bumps, -1, i) {
      var n :| NearestNamed(commits, bumps, i, n) && LeftBy(bumps, commits[n], version);
      NoneNamedPast(commits, bumps, n, i);
      assert NearestNamed(commits, bumps, i + 1, n);
    }
  }

  lemma {:induction false} CarriedIs(commits: seq<Commit>, bumps: map<string, Bump>, tip: Option<string>, i: nat)
    requires i <= |commits|
    ensures CarriedTo(commits, bumps, tip, i, Carried(commits[..i], bumps, tip))
  {
    if i == 0 {
    } else {
      CarriedIs(commits, bumps, tip, i - 1);
      assert commits[..i][..i - 1] == commits[..i - 1];
      if NamesOne(bumps, commits[i - 1]) {
        CarriedFrom(commits, bumps, tip, i - 1);
      } else {
        CarriedPast(commits, bumps, tip, i - 1, Carried(commits[..i - 1], bumps, tip));
      }
    }
  }

  lemma EntriesList(records: seq<Option<Commit>>, bumps: map<string, Bump>, tip: Option<string>)
    ensures Lists(Entries(Whole(records), bumps, tip), records, bumps, tip)
  {
    var commits := Whole(records);
    WholeFilters(records);
    forall i | 0 <= i < |commits| ensures EntryFor(Entries(commits, bumps, tip)[i], commits, bumps, tip, i) {
      EntryAt(commits, bumps, tip, i);
      CarriedIs(commits, bumps, tip, i);
    }
  }

  /** The loop of `_parse`. */
  method ParseRecords(records: seq<Option<Commit>>, bumps: map<string, Bump>, tip: Option<string>)
    returns (es: seq<Entry>)
    ensures es == Entries(Whole(records), bumps, tip)
  {
    es := [];
    var version := tip;
    for i := 0 to |records|
      invariant es == Entries(Whole(records[..i]), bumps, tip)
      invariant version == Carried(Whole(records[..i]), bumps, tip)
    {
      OneMoreRecord(records, i);
      if records[i].Some? {
        var c := records[i].value;
        OneMoreCommit(Whole(records[..i]), c, bumps, tip);
        var b := BumpAt(bumps, c);
        if b.after.Some? {
          version := b.after;
        }
        es := es + [Entry(c.sha, version, b.after)];
        if b.before.Some? {
          version := b.before;
        }
      }
    }
    assert records[..|records|] == records;
  }

  /** `_parse`. */
  method Parse(records: seq<Option<Commit>>, bumps: map<string, Bump>, tip: Option<string>) returns (es: seq<Entry>)
    ensures es == Entries(Whole(records), bumps, tip) && Lists(es, records, bumps, tip)
  {
    es := ParseRecords(records, bumps, tip);
    EntriesList(records, bumps, tip);
  }

  // ------------------------------------------------------- what the tags mean

  /** The file's history: `held[i]` is the version it held after commit `i` (newest first),
      `held[n]` what it held before the oldest listed; None where it held none. */
  ghost predicate History(commits: seq<Commit>, held: seq<Option<string>>, bumps: map<string, Bump>) {
    |held| == |commits| + 1 && forall i :: 0 <= i < |commits| ==> Records(commits[i], held[i], held[i + 1], bumps)
  }

  /** A commit's bump tells the truth: the versions around it when it touched the line,
      nothing when it did not. */
  ghost predicate Records(c: Commit, after: Option<string>, before: Option<string>, bumps: map<string, Bump>) {
    BumpAt(bumps, c) == Bump(before, after) || (BumpAt(bumps, c) == Bump(None, None) && before == after)
  }

  /** What the file held after commit `i`; where it held no version, what the next newer
      commit's file held, and so on up to the tip. */
  ghost function Nearest(held: seq<Option<string>>, i: nat, tip: Option<string>): Option<string>
    requires i < |held|
  {
    if held[i].Some? then held[i] else if i == 0 then tip else Nearest(held, i - 1, tip)
  }

  lemma {:induction false} CarriedIsNearest(commits: seq<Commit>, held: seq<Option<string>>, bumps: map<string, Bump>,
                                            tip: Option<string>, n: nat)
    requires History(commits, held, bumps) && n <= |commits|
    requires held[0].Some? ==> held[0] == tip
    ensures Carried(commits[..n], bumps, tip) == Nearest(held, n, tip)
  {
    if n == 0 {
    } else {
      CarriedIsNearest(commits, held, bumps, tip, n - 1);
      assert commits[..n][..n - 1] == commits[..n - 1];
      assert Records(commits[n - 1], held[n - 1], held[n], bumps);
      if BumpAt(bumps, commits[n - 1]) == Bump(None, None) {
        SameNearest(held, n, tip);
      }
    }
  }

  lemma SameNearest(held: seq<Option<string>>, n: nat, tip: Option<string>)
    requires 0 < n < |held| && (held[n] == held[n - 1] || held[n].None?)
    ensures Nearest(held, n, tip) == Nearest(held, n - 1, tip)
  {
  }

  lemma {:induction false} EntryAt(commits: seq<Commit>, bumps: map<string, Bump>, tip: Option<string>, i: nat)
    requires i < |commits|
    ensures Entries(commits, bumps, tip)[i] ==
            var b := BumpAt(bumps, commits[i]);
            Entry(commits[i].sha, Or(b.after, Carried(commits[..i], bumps, tip)), b.after)
  {
    var init := commits[..|commits| - 1];
    if i < |init| {
      EntryAt(init, bumps, tip, i);
      assert init[..i] == commits[..i];
    }
  }

  /** Every commit of a linear history is listed under the version its own tree held. */
  lemma TaggedWithOwnVersion(commits: seq<Commit>, held: seq<Option<string>>, bumps: map<string, Bump>,
                             tip: Option<string>, i: nat)
    requires History(commits, held, bumps) && i < |commits|
    requires held[0].Some? ==> held[0] == tip
    ensures Entries(commits, bumps, tip)[i].version == Nearest(held, i, tip)
    ensures held[i].Some? ==> Entries(commits, bumps, tip)[i].version == held[i]
  {
    EntryAt(commits, bumps, tip, i);
    CarriedIsNearest(commits, held, bumps, tip, i);
    assert Records(commits[i], held[i], held[i + 1], bumps);
  }

  /** The log above commit n, or its own added line, names a version. */
  ghost predicate Told(commits: seq<Commit>, bumps: map<string, Bump>, n: nat)
    requires n < |commits|
  {
    BumpAt(bumps, commits[n]).after.Some? || ToldAbove(commits, bumps, n)
  }

  ghost predicate ToldAbove(commits: seq<Commit>, bumps: map<string, Bump>, n: nat)
    requires n <= |commits|
  {
    exists i :: 0 <= i < n && BumpAt(bumps, commits[i]) != Bump(None, None)
  }

  /** What is carried to commit n: what the file held, once a version has been named, and
      the tip before. */
  lemma {:induction false} CarriedRight(commits: seq<Commit>, held: seq<Option<string>>, bumps: map<string, Bump>,
                                        tip: Option<string>, n: nat)
    requires History(commits, held, bumps) && n <= |commits| && held[n].Some?
    ensures ToldAbove(commits, bumps, n) ==> Carried(commits[..n], bumps, tip) == held[n]
    ensures !ToldAbove(commits, bumps, n) ==> Carried(commits[..n], bumps, tip) == tip
  {
    if n == 0 {
    } else {
      assert commits[..n][..n - 1] == commits[..n - 1];
      assert Records(commits[n - 1], held[n - 1], held[n], bumps);
      if BumpAt(bumps, commits[n - 1]) == Bump(None, None) {
        CarriedRight(commits, held, bumps, tip, n - 1);
        assert ToldAbove(commits, bumps, n) <==> ToldAbove(commits, bumps, n - 1);
      }
    }
  }

  /** Which is why the tip must agree, and only until the log first names a version: a
      commit whose tree held one is listed under it exactly when the log has told by then,
      or the tip is that version; and under the tip when it has not. */
  lemma TipRules(commits: seq<Commit>, held: seq<Option<string>>, bumps: map<string, Bump>, tip: Option<string>, n: nat)
    requires History(commits, held, bumps) && n < |commits| && held[n].Some?
    ensures Entries(commits, bumps, tip)[n].version == held[n] <==> Told(commits, bumps, n) || tip == held[n]
    ensures !Told(commits, bumps, n) ==> Entries(commits, bumps, tip)[n].version == tip
  {
    EntryAt(commits, bumps, tip, n);
    CarriedRight(commits, held, bumps, tip, n);
    assert Records(commits[n], held[n], held[n + 1], bumps);
  }
}
