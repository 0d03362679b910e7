/** The daily wear rows (`Wear._store`): a memo of what was last handed to the table lets
    most reports skip the write.  While the history is recording, skipping is invisible:
    the table ends up as if every row of every report had been written.  The memo does not
    know when it is not. */
module WearStore {
  import opened Prelude

  const MAX_SUBJECTS: nat := 256
  const MAX_MEMO: nat := 4000

  datatype Subject = Subject(node: string, kind: string, name: string)

  type Counters = map<string, real>

  /** One row per subject and day: the table's primary key. */
  type Table = map<(Subject, int), Counters>

  datatype Reading = Reading(kind: string, name: string, counters: Counters)

  function Bounded(rs: seq<Reading>): seq<Reading> {
    if |rs| <= MAX_SUBJECTS then rs else rs[..MAX_SUBJECTS]
  }

  /** INSERT OR REPLACE of every reading, in order. */
  function WriteAll(t: Table, node: string, day: int, rs: seq<Reading>): Table {
    if rs == [] then t else
    var r := rs[|rs| - 1];
    WriteAll(t, node, day, rs[..|rs| - 1])[(Subject(node, r.kind, r.name), day) := r.counters]
  }

  type Memo = map<Subject, (int, Counters)>

  /** What the memo claims was written is in the table, unless it has been pruned, or the
      day was one without recording. */
  ghost predicate Sound(memo: Memo, t: Table, horizon: int, dark: set<int>) {
    forall s :: s in memo && memo[s].0 >= horizon && memo[s].0 !in dark ==> Holds(t, s, memo[s].0, memo[s].1)
  }

  ghost predicate Holds(t: Table, s: Subject, day: int, counters: Counters) {
    (s, day) in t && t[(s, day)] == counters
  }

  /** The last reading of a subject in a report. */
  ghost function Last(node: string, rs: seq<Reading>, s: Subject): Option<Counters> {
    if rs == [] then None else
    var r := rs[|rs| - 1];
    if s == Subject(node, r.kind, r.name) then Some(r.counters) else Last(node, rs[..|rs| - 1], s)
  }

  ghost predicate Repeats(node: string, rs: seq<Reading>, s: Subject, counters: Counters) {
    forall i :: 0 <= i < |rs| && s == Subject(node, rs[i].kind, rs[i].name) ==> rs[i].counters == counters
  }

  /** The report says nothing about the subject but what the memo holds for the day. */
  ghost predicate Skips(memo: Memo, node: string, day: int, rs: seq<Reading>, s: Subject) {
    Last(node, rs, s).Some? && s in memo && memo[s].0 == day && Repeats(node, rs, s, memo[s].1)
  }

  /** Whatever is skipped is in the table already. */
  ghost predicate Covered(memo: Memo, t: Table, node: string, day: int, rs: seq<Reading>) {
    forall s :: Skips(memo, node, day, rs, s) ==> Holds(t, s, day, memo[s].1)
  }

  lemma SoundCovers(memo: Memo, t: Table, horizon: int, dark: set<int>, node: string, day: int, rs: seq<Reading>)
    requires Sound(memo, t, horizon, dark) && day >= horizon && day !in dark
    ensures Covered(memo, t, node, day, rs)
  {
  }

  /** What a report leaves at one key. */
  lemma {:induction false} WriteAllAt(t: Table, node: string, day: int, rs: seq<Reading>, s: Subject, d: int)
    ensures var after := WriteAll(t, node, day, rs);
            if d == day && Last(node, rs, s).Some? then Holds(after, s, d, Last(node, rs, s).value)
            else ((s, d) in after <==> (s, d) in t) && ((s, d) in t ==> after[(s, d)] == t[(s, d)])
  {
    if rs == [] {
    } else {
      WriteAllAt(t, node, day, rs[..|rs| - 1], s, d);
    }
  }

  /** In the loop: the memo holds the last reading of what has been seen, and a subject
      without a row to write repeats what the memo held before. */
  ghost predicate Seen(was: Memo, now: Memo, node: string, day: int, done: seq<Reading>, changed: seq<Reading>,
                       s: Subject) {
    match Last(node, done, s)
    case None => Last(node, changed, s) == None && (s in now <==> s in was) && (s in was ==> now[s] == was[s])
    case Some(c) =>
      && s in now && now[s] == (day, c)
      && Last(node, changed, s) == if Skips(was, node, day, done, s) then None else Some(c)
  }

  lemma LastAppend(node: string, rs: seq<Reading>, r: Reading, s: Subject)
    ensures Last(node, rs + [r], s) ==
            if s == Subject(node, r.kind, r.name) then Some(r.counters) else Last(node, rs, s)
    ensures forall c :: Repeats(node, rs + [r], s, c) <==>
                        Repeats(node, rs, s, c) && (s == Subject(node, r.kind, r.name) ==> r.counters == c)
  {
    assert (rs + [r])[..|rs|] == rs;
    forall c ensures Repeats(node, rs + [r], s, c) <==>
                     Repeats(node, rs, s, c) && (s == Subject(node, r.kind, r.name) ==> r.counters == c) {
      if Repeats(node, rs + [r], s, c) {
        assert (rs + [r])[|rs|] == r && forall i :: 0 <= i < |rs| ==> (rs + [r])[i] == rs[i];
      }
    }
  }

  lemma {:induction false} NoneRepeats(node: string, rs: seq<Reading>, s: Subject, c: Counters)
    requires Last(node, rs, s) == None
    ensures Repeats(node, rs, s, c)
  {
    if rs == [] {
    } else {
      NoneRepeats(node, rs[..|rs| - 1], s, c);
      assert forall i :: 0 <= i < |rs| - 1 ==> rs[..|rs| - 1][i] == rs[i];
    }
  }

  lemma {:induction false} RepeatsLast(node: string, rs: seq<Reading>, s: Subject, c: Counters)
    requires Last(node, rs, s).Some? && Repeats(node, rs, s, c)
    ensures Last(node, rs, s) == Some(c)
  {
    var r := rs[|rs| - 1];
    if s != Subject(node, r.kind, r.name) {
      assert forall i :: 0 <= i < |rs| - 1 ==> rs[..|rs| - 1][i] == rs[i];
      RepeatsLast(node, rs[..|rs| - 1], s, c);
    }
  }

  lemma SeenNext(was: Memo, now: Memo, node: string, day: int, done: seq<Reading>, changed: seq<Reading>, r: Reading,
                 s: Subject)
    requires Seen(was, now, node, day, done, changed, s)
    ensures var me := Subject(node, r.kind, r.name);
            if me in now && now[me] == (day, r.counters) then Seen(was, now, node, day, done + [r], changed, s)
            else Seen(was, now[me := (day, r.counters)], node, day, done + [r], changed + [r], s)
  {
    LastAppend(node, done, r, s);
    LastAppend(node, changed, r, s);
    if Last(node, done, s) == None && s in was {
      NoneRepeats(node, done, s, was[s].1);
    }
    if Skips(was, node, day, done, s) {
      RepeatsLast(node, done, s, was[s].1);
    }
  }

  /** What a report leaves at one key when what repeats the memo is skipped. */
  ghost predicate LeftAt(was: Memo, t: Table, after: Table, node: string, day: int, rs: seq<Reading>, s: Subject,
                         d: int)
  {
    if d == day && Last(node, rs, s).Some? && !Skips(was, node, day, rs, s)
    then Holds(after, s, d, Last(node, rs, s).value)
    else ((s, d) in after <==> (s, d) in t) && ((s, d) in t ==> after[(s, d)] == t[(s, d)])
  }

  ghost predicate SameAt(t: Table, u: Table, s: Subject, d: int) {
    ((s, d) in t <==> (s, d) in u) && ((s, d) in t ==> t[(s, d)] == u[(s, d)])
  }

  /** Written or not, what the table then holds at a key. */
  lemma ChangedAt(was: Memo, now: Memo, t: Table, node: string, day: int, rows: seq<Reading>, changed: seq<Reading>,
                  s: Subject, d: int)
    requires Seen(was, now, node, day, rows, changed, s)
    ensures var left, all := WriteAll(t, node, day, changed), WriteAll(t, node, day, rows);
            SameAt(left, all, s, d) <==> (d == day && Skips(was, node, day, rows, s) ==> Holds(t, s, day, was[s].1))
    ensures LeftAt(was, t, WriteAll(t, node, day, changed), node, day, rows, s, d)
  {
    WriteAllAt(t, node, day, changed, s, d);
    WriteAllAt(t, node, day, rows, s, d);
    if Skips(was, node, day, rows, s) {
      RepeatsLast(node, rows, s, was[s].1);
    }
  }

  lemma SameEverywhere(t: Table, u: Table)
    requires forall k: (Subject, int) :: SameAt(t, u, k.0, k.1)
    ensures t == u
  {
    forall k ensures (k in t <==> k in u) && (k in t ==> t[k] == u[k]) {
      assert SameAt(t, u, k.0, k.1);
    }
  }

  /** Writing what the loop let through is writing everything exactly when the skipped is
      in the table. */
  lemma ChangedWrites(was: Memo, now: Memo, t: Table, node: string, day: int, rows: seq<Reading>, changed: seq<Reading>)
    requires forall s :: Seen(was, now, node, day, rows, changed, s)
    ensures forall s, d :: LeftAt(was, t, WriteAll(t, node, day, changed), node, day, rows, s, d)
    ensures WriteAll(t, node, day, changed) == WriteAll(t, node, day, rows) <==> Covered(was, t, node, day, rows)
  {
    var left, all := WriteAll(t, node, day, changed), WriteAll(t, node, day, rows);
    forall s, d
      ensures SameAt(left, all, s, d) <==> (d == day && Skips(was, node, day, rows, s) ==> Holds(t, s, day, was[s].1))
      ensures LeftAt(was, t, left, node, day, rows, s, d)
    {
      ChangedAt(was, now, t, node, day, rows, changed, s, d);
    }
    if Covered(was, t, node, day, rows) {
      forall k: (Subject, int) ensures SameAt(left, all, k.0, k.1) {
        var (s, d) := k;
        assert d == day && Skips(was, node, day, rows, s) ==> Holds(t, s, day, was[s].1);
      }
      SameEverywhere(left, all);
    } else {
      var s :| Skips(was, node, day, rows, s) && !Holds(t, s, day, was[s].1);
      assert !SameAt(left, all, s, day);
    }
  }

  /** The memo is right about the table the report leaves, if it was before. */
  lemma StaysSound(was: Memo, now: Memo, t: Table, horizon: int, dark: set<int>, node: string, day: int,
                   rows: seq<Reading>, changed: seq<Reading>)
    requires Sound(was, t, horizon, dark) && day >= horizon && forall s :: Seen(was, now, node, day, rows, changed, s)
    ensures Sound(now, WriteAll(t, node, day, changed), horizon, dark)
    ensures Sound(now, t, horizon, dark + {day})
  {
    var left := WriteAll(t, node, day, changed);
    forall s | s in now && now[s].0 >= horizon && now[s].0 !in dark ensures Holds(left, s, now[s].0, now[s].1) {
      assert Seen(was, now, node, day, rows, changed, s);
      WriteAllAt(t, node, day, changed, s, now[s].0);
      if Skips(was, node, day, rows, s) {
        RepeatsLast(node, rows, s, was[s].1);
      }
    }
    forall s | s in now && now[s].0 >= horizon && now[s].0 !in dark + {day} ensures Holds(t, s, now[s].0, now[s].1) {
      assert Seen(was, now, node, day, rows, changed, s);
    }
  }

  /** What a later read of one subject and day sees: the last reading wins. */
  lemma {:induction false} LastReadingWins(t: Table, node: string, day: int, rs: seq<Reading>, s: Subject, d: int)
    ensures d == day && s.node == node &&
            (exists i :: 0 <= i < |rs| && s == Subject(node, rs[i].kind, rs[i].name)) ==>
              (s, d) in WriteAll(t, node, day, rs) &&
              exists i :: 0 <= i < |rs| && s == Subject(node, rs[i].kind, rs[i].name) &&
                WriteAll(t, node, day, rs)[(s, d)] == rs[i].counters &&
                forall j :: i < j < |rs| ==> s != Subject(node, rs[j].kind, rs[j].name)
    ensures d != day || s.node != node || (forall i :: 0 <= i < |rs| ==> s != Subject(node, rs[i].kind, rs[i].name)) ==>
              ((s, d) in WriteAll(t, node, day, rs) <==> (s, d) in t) &&
              ((s, d) in t ==> WriteAll(t, node, day, rs)[(s, d)] == t[(s, d)])
  {
    if rs == [] {
    } else {
      var init := rs[..|rs| - 1];
      LastReadingWins(t, node, day, init, s, d);
      assert forall i :: 0 <= i < |init| ==> init[i] == rs[i];
    }
  }

  class Wear {
    var written: Memo
    var table: Table
    /** Whether the history takes rows. */
    var recording: bool
    ghost var horizon: int
    /** Days on which a report came while it did not. */
    ghost var dark: set<int>

    ghost predicate Valid()
      reads this
    {
      Sound(written, table, horizon, dark)
    }

    constructor (table: Table, recording: bool)
      ensures Valid() && this.table == table && this.recording == recording
      ensures written == map[] && horizon == 0 && dark == {}
    {
      written, this.table, this.recording, horizon, dark := map[], table, recording, 0, {};
    }

    /** The setting is saved. */
    method Record(recording: bool)
      requires Valid()
      modifies this`recording
      ensures Valid() && this.recording == recording
    {
      this.recording := recording;
    }

    method Store(node: string, readings: seq<Reading>, today: int)
      requires Valid() && today >= horizon
      modifies this`written, this`table, this`dark
      ensures Valid() && dark == old(dark) + if recording then {} else {today}
      ensures !recording ==> table == old(table)
      ensures recording ==>
                forall s, d ::
                  LeftAt(Trimmed(old(written)), old(table), table, node, today, Taken(readings), s, d)
      // So recording, the table is as if all had been written, exactly when what the memo
      // skips is there; so always, unless a report came today while it was not recording.
      ensures recording ==>
                (table == WriteAll(old(table), node, today, Taken(readings)) <==>
                 Covered(Trimmed(old(written)), old(table), node, today, Taken(readings)))
      ensures recording && today !in old(dark) ==>
                table == WriteAll(old(table), node, today, Taken(readings))
      ensures forall s :: Noted(old(written), written, node, today, Taken(readings), s)
    {
      if |written| > MAX_MEMO {
        written := map[];
      }
      ghost var was := written;
      var rows := Bounded(readings);
      assert rows == Taken(readings);
      var changed := Changed(node, rows, today);
      ChangedWrites(was, written, table, node, today, rows, changed);
      StaysSound(was, written, table, horizon, dark, node, today, rows, changed);
      if recording {
        if today !in dark {
          SoundCovers(was, table, horizon, dark, node, today, rows);
        }
        table := WriteAll(table, node, today, changed);
      } else {
        dark := dark + {today};
      }
      forall s ensures Noted(old(written), written, node, today, rows, s) {
        assert Seen(was, written, node, today, rows, changed, s);
      }
    }

    /** The loop over the readings: those that the memo does not already hold. */
    method Changed(node: string, rows: seq<Reading>, today: int) returns (changed: seq<Reading>)
      modifies this`written
      ensures forall s :: Seen(old(written), written, node, today, rows, changed, s)
    {
      changed := [];
      ghost var done: seq<Reading> := [];
      for k := 0 to |rows|
        invariant done == rows[..k]
        invariant forall s :: Seen(old(written), written, node, today, done, changed, s)
      {
        var r := rows[k];
        var me := Subject(node, r.kind, r.name);
        ghost var before, so := written, changed;
        if !(me in written && written[me] == (today, r.counters)) {
          written := written[me := (today, r.counters)];
          changed := changed + [r];
        }
        OneMore(rows, k);
        forall s ensures Seen(old(written), written, node, today, done + [r], changed, s) {
          SeenNext(old(written), before, node, today, done, so, r, s);
        }
        done := done + [r];
      }
      assert done == rows;
    }

    /** A deleted node loses its memo; its rows stay. */
    method Forget(node: string)
      requires Valid()
      modifies this`written
      ensures Valid()
      ensures written == map s | s in old(written) && s.node != node :: old(written)[s]
    {
      written := map s | s in written && s.node != node :: written[s];
    }

    /** Rows before the cutoff go.  A longer retention gives an earlier cutoff, and no row
        comes back. */
    method Prune(cutoff: int)
      requires Valid()
      modifies this`table, this`horizon
      ensures Valid() && horizon == Max(old(horizon), cutoff)
      ensures table == map key | key in old(table) && key.1 >= cutoff :: old(table)[key]
    {
      table := map key | key in table && key.1 >= cutoff :: table[key];
      horizon := Max(horizon, cutoff);
    }
  }

  /** The memo starts afresh when it has grown beyond 4000 subjects. */
  ghost function Trimmed(memo: Memo): Memo {
    if |memo| > 4000 then map[] else memo
  }

  /** The first 256 readings of a report, or all of fewer. */
  ghost function Taken(rs: seq<Reading>): seq<Reading> {
    rs[..if |rs| < 256 then |rs| else 256]
  }

  /** After a report the memo holds its last reading of each subject, and of the others
      what it held, if it was not too large. */
  ghost predicate Noted(was: Memo, now: Memo, node: string, day: int, rs: seq<Reading>, s: Subject) {
    match Last(node, rs, s)
    case Some(c) => s in now && now[s] == (day, c)
    case None => (s in now <==> s in Trimmed(was)) && (s in now ==> now[s] == was[s])
  }

  lemma OneReading(node: string, r: Reading, day: int)
    ensures var me := Subject(node, r.kind, r.name);
            WriteAll(map[], node, day, [r]) == map[(me, day) := r.counters] &&
            (forall s :: Last(node, [r], s) == if s == me then Some(r.counters) else None) &&
            Repeats(node, [r], me, r.counters)
  {
    assert [r][..0] == [];
  }

  lemma FirstNote(memo: Memo, node: string, r: Reading, day: int)
    requires forall s :: Noted(map[], memo, node, day, [r], s)
    ensures memo == map[Subject(node, r.kind, r.name) := (day, r.counters)] && |memo| == 1
  {
    var me := Subject(node, r.kind, r.name);
    OneReading(node, r, day);
    forall s ensures s in memo <==> s == me {
      assert Noted(map[], memo, node, day, [r], s);
    }
    assert Noted(map[], memo, node, day, [r], me);
    assert memo.Keys == {me};
  }

  /** The report repeats the memo, which was filled and not trimmed. */
  lemma OnlyReading(node: string, r: Reading, day: int, memo: Memo)
    requires var me := Subject(node, r.kind, r.name); me in memo && memo[me] == (day, r.counters) && |memo| <= 4000
    ensures Trimmed(memo) == memo && forall s :: Last(node, [r], s).Some? ==> Skips(memo, node, day, [r], s)
  {
    OneReading(node, r, day);
  }

  /** Recording goes off and on within one day: the reading that came in between is skipped
      when it comes again, and the table never has it. */
  method OffAndOn(node: string, r: Reading, today: int) returns (w: Wear)
    requires today >= 0
    ensures fresh(w) && w.recording && w.table == map[]
    ensures WriteAll(map[], node, today, [r]) != map[]
  {
    w := new Wear(map[], true);
    var me := Subject(node, r.kind, r.name);
    OneReading(node, r, today);
    assert Taken([r]) == [r];
    w.Record(false);
    assert w.written == map[];
    w.Store(node, [r], today);
    ghost var memo := w.written;
    FirstNote(memo, node, r, today);
    w.Record(true);
    w.Store(node, [r], today);
    OnlyReading(node, r, today, memo);
    forall k ensures k !in w.table {
      assert LeftAt(memo, map[], w.table, node, today, [r], k.0, k.1);
    }
    assert w.table == map[];
  }
}
