/** Accumulation: every accepted sample goes into a ring and into its subject's open
    hour bucket; when the hour turns (or at shutdown) the buckets are written, one row
    per hour and subject (`Pulse._fold`, `_roll`, `_write`, `flush`, `Bucket.add`). */
module PulseBuckets {
  import opened Prelude
  import opened PulseBaseline

  const SAMPLE_GAP_S: real := 20.0
  const RING: nat := 120
  const SUBJECT_IDLE_S: real := 7200.0
  const MAX_SUBJECTS: nat := 400

  datatype Subject = Subject(kind: Kind, id: string)

  datatype Sample = Sample(key: Subject, stamp: real, a: real, b: real, active: bool)

  function Larger(x: real, y: real): real {
    if y > x then y else x
  }

  datatype Bucket = Bucket(n: nat, activeN: nat, aSum: real, aMax: real, bSum: real, bMax: real) {
    function Add(a: real, b: real, active: bool): Bucket {
      Bucket(n + 1, activeN + (if active then 1 else 0), aSum + a, Larger(aMax, a), bSum + b, Larger(bMax, b))
    }
  }

  const EMPTY: Bucket := Bucket(0, 0, 0.0, 0.0, 0.0, 0.0)

  function IsActive(kind: Kind, a: real, b: real): bool {
    var m := MetricOf(kind);
    a >= m.floorA || (m.hasB && b >= m.floorB)
  }

  // ------------------------------------------------------------ specification

  /** Above the noise, kind by kind. */
  ghost predicate Busy(kind: Kind, a: real, b: real) {
    match kind
    case Listener => a >= 1.0
    case Unit => a >= 0.5 || b >= 65_536.0
    case Machine => a >= 32_768.0 || b >= 32_768.0
    case Journal => a >= 0.05
  }

  lemma ActiveIsBusy(kind: Kind, a: real, b: real)
    ensures IsActive(kind, a, b) <==> Busy(kind, a, b)
  {
  }

  ghost function CountOf(ss: seq<Sample>, key: Subject): nat {
    if ss == [] then 0 else
    CountOf(ss[..|ss| - 1], key) + if ss[|ss| - 1].key == key then 1 else 0
  }

  ghost function ActiveOf(ss: seq<Sample>, key: Subject): nat {
    if ss == [] then 0 else
    ActiveOf(ss[..|ss| - 1], key) + if ss[|ss| - 1].key == key && ss[|ss| - 1].active then 1 else 0
  }

  ghost function SumA(ss: seq<Sample>, key: Subject): real {
    if ss == [] then 0.0 else
    SumA(ss[..|ss| - 1], key) + if ss[|ss| - 1].key == key then ss[|ss| - 1].a else 0.0
  }

  ghost function SumB(ss: seq<Sample>, key: Subject): real {
    if ss == [] then 0.0 else
    SumB(ss[..|ss| - 1], key) + if ss[|ss| - 1].key == key then ss[|ss| - 1].b else 0.0
  }

  /** The bucket of one subject over a list of samples. */
  ghost function BucketOf(ss: seq<Sample>, key: Subject): Bucket {
    if ss == [] then EMPTY else
    var s := ss[|ss| - 1];
    var rest := BucketOf(ss[..|ss| - 1], key);
    if s.key == key then rest.Add(s.a, s.b, s.active) else rest
  }

  ghost function SubjectsIn(ss: seq<Sample>): set<Subject> {
    set i | 0 <= i < |ss| :: ss[i].key
  }

  /** Everything one write stored. */
  datatype Batch = Batch(hour: int, samples: seq<Sample>)

  type Table = map<(int, Subject), Bucket>

  ghost function Rows(b: Batch): Table {
    map key | key in SubjectsIn(b.samples) :: (b.hour, key) := BucketOf(b.samples, key)
  }

  /** INSERT OR REPLACE of one batch after the other. */
  ghost function TableOf(start: Table, bs: seq<Batch>): Table {
    if bs == [] then start else TableOf(start, bs[..|bs| - 1]) + Rows(bs[|bs| - 1])
  }

  /** All samples written for one hour, in order. */
  ghost function WrittenIn(bs: seq<Batch>, hour: int): seq<Sample> {
    if bs == [] then [] else
    WrittenIn(bs[..|bs| - 1], hour) + if bs[|bs| - 1].hour == hour then bs[|bs| - 1].samples else []
  }

  ghost function Accepted(bs: seq<Batch>): seq<Sample> {
    if bs == [] then [] else Accepted(bs[..|bs| - 1]) + bs[|bs| - 1].samples
  }

  lemma SubjectsAppend(ss: seq<Sample>, ts: seq<Sample>)
    ensures SubjectsIn(ss + ts) == SubjectsIn(ss) + SubjectsIn(ts)
  {
    var all := ss + ts;
    forall k | k in SubjectsIn(ss) + SubjectsIn(ts) ensures k in SubjectsIn(all) {
      if k in SubjectsIn(ss) {
        var i :| 0 <= i < |ss| && ss[i].key == k;
        assert all[i].key == k;
      } else {
        var i :| 0 <= i < |ts| && ts[i].key == k;
        assert all[|ss| + i].key == k;
      }
    }
  }

  lemma {:induction false} BucketAppend(ss: seq<Sample>, ts: seq<Sample>, key: Subject)
    ensures key !in SubjectsIn(ts) ==> BucketOf(ss + ts, key) == BucketOf(ss, key)
    ensures key !in SubjectsIn(ss) ==> BucketOf(ss + ts, key) == BucketOf(ts, key)
    ensures BucketOf(ss + ts, key).n == BucketOf(ss, key).n + BucketOf(ts, key).n
  {
    if ts == [] {
      assert ss + ts == ss;
      NoSamples(ss, key);
    } else {
      var init, last := ts[..|ts| - 1], ts[|ts| - 1];
      BucketAppend(ss, init, key);
      assert (ss + ts)[..|ss + ts| - 1] == ss + init;
      assert ts == init + [last];
      SubjectsAppend(init, [last]);
      assert [last][0] == last;
    }
  }

  lemma {:induction false} NoSamples(ss: seq<Sample>, key: Subject)
    ensures key !in SubjectsIn(ss) <==> BucketOf(ss, key).n == 0
    ensures key !in SubjectsIn(ss) ==> BucketOf(ss, key) == EMPTY
  {
    if ss == [] {
    } else {
      var init, last := ss[..|ss| - 1], ss[|ss| - 1];
      NoSamples(init, key);
      assert ss == init + [last];
      SubjectsAppend(init, [last]);
      assert [last][0] == last;
    }
  }

  /** A bucket counts its subject's samples and the active ones, and adds up each of their
      two values. */
  lemma {:induction false} BucketSums(ss: seq<Sample>, key: Subject)
    ensures var b := BucketOf(ss, key);
            b.n == CountOf(ss, key) && b.activeN == ActiveOf(ss, key) && b.activeN <= b.n &&
            b.aSum == SumA(ss, key) && b.bSum == SumB(ss, key)
  {
    if ss == [] {
    } else {
      BucketSums(ss[..|ss| - 1], key);
    }
  }

  /** And its maxima are the largest of each, or 0 when none is above. */
  lemma {:induction false} BucketMaxima(ss: seq<Sample>, key: Subject)
    ensures var b := BucketOf(ss, key);
            b.aMax >= 0.0 && b.bMax >= 0.0 &&
            (forall i :: 0 <= i < |ss| && ss[i].key == key ==> ss[i].a <= b.aMax && ss[i].b <= b.bMax) &&
            (b.aMax > 0.0 ==> exists i :: 0 <= i < |ss| && ss[i].key == key && ss[i].a == b.aMax) &&
            (b.bMax > 0.0 ==> exists i :: 0 <= i < |ss| && ss[i].key == key && ss[i].b == b.bMax)
  {
    if ss == [] {
    } else {
      var init := ss[..|ss| - 1];
      BucketMaxima(init, key);
      assert forall i :: 0 <= i < |init| ==> ss[i] == init[i];
      var was := BucketOf(init, key);
      if i :| 0 <= i < |init| && init[i].key == key && init[i].a == was.aMax {
        assert ss[i].key == key && ss[i].a == was.aMax;
      }
      if i :| 0 <= i < |init| && init[i].key == key && init[i].b == was.bMax {
        assert ss[i].key == key && ss[i].b == was.bMax;
      }
    }
  }

  /** The samples of a subject in what a bucket summarises, told by the bucket. */
  lemma BucketMeaning(ss: seq<Sample>, key: Subject)
    ensures Summarises(BucketOf(ss, key), ss, key)
  {
    BucketSums(ss, key);
    BucketMaxima(ss, key);
  }

  ghost predicate Summarises(b: Bucket, ss: seq<Sample>, key: Subject) {
    && b.n == CountOf(ss, key) && b.activeN == ActiveOf(ss, key)
    && b.aSum == SumA(ss, key) && b.bSum == SumB(ss, key)
    && b.aMax >= 0.0 && b.bMax >= 0.0
    && (forall i :: 0 <= i < |ss| && ss[i].key == key ==> ss[i].a <= b.aMax && ss[i].b <= b.bMax)
    && (b.aMax > 0.0 ==> exists i :: 0 <= i < |ss| && ss[i].key == key && ss[i].a == b.aMax)
    && (b.bMax > 0.0 ==> exists i :: 0 <= i < |ss| && ss[i].key == key && ss[i].b == b.bMax)
  }

  ghost predicate InHour(ss: seq<Sample>, hourOf: real -> int, hour: int) {
    forall i :: 0 <= i < |ss| ==> hourOf(ss[i].stamp) == hour
  }

  /** Batches hold their own hour's samples and come in hour order, none after `bound`;
      `strict` says that no two share an hour and none is of `bound` itself. */
  ghost predicate InOrder(bs: seq<Batch>, hourOf: real -> int, bound: int, strict: bool) {
    bs == [] ||
    var last := bs[|bs| - 1];
    (if strict then last.hour < bound else last.hour <= bound) &&
    InHour(last.samples, hourOf, last.hour) &&
    InOrder(bs[..|bs| - 1], hourOf, last.hour, strict)
  }

  lemma {:induction false} OrderLoosens(bs: seq<Batch>, hourOf: real -> int, bound: int, strict: bool, later: int)
    requires InOrder(bs, hourOf, bound, strict) && bound <= later
    ensures InOrder(bs, hourOf, later, strict) && InOrder(bs, hourOf, later, false)
  {
    if bs == [] {
    } else {
      OrderLoosens(bs[..|bs| - 1], hourOf, bs[|bs| - 1].hour, strict, bs[|bs| - 1].hour);
    }
  }

  lemma {:induction false} StrictHours(bs: seq<Batch>, hourOf: real -> int, bound: int, i: nat)
    requires InOrder(bs, hourOf, bound, true) && i <= |bs|
    ensures i == |bs| ==> forall j :: 0 <= j < |bs| ==> bs[j].hour < bound
    ensures i < |bs| ==> forall j :: 0 <= j < i ==> bs[j].hour < bs[i].hour
  {
    if bs == [] {
    } else {
      var init := bs[..|bs| - 1];
      StrictHours(init, hourOf, bs[|bs| - 1].hour, if i < |init| then i else |init|);
      assert forall j :: 0 <= j < |init| ==> init[j] == bs[j];
    }
  }

  lemma {:induction false} NothingWritten(bs: seq<Batch>, hour: int)
    requires forall i :: 0 <= i < |bs| ==> bs[i].hour != hour
    ensures WrittenIn(bs, hour) == []
  {
    if bs == [] {
    } else {
      NothingWritten(bs[..|bs| - 1], hour);
    }
  }

  /** Batch `i` is where the row came from; it counts all of the hour's samples exactly
      when no earlier batch of that hour had one of the subject's. */
  ghost predicate RowFrom(start: Table, bs: seq<Batch>, hour: int, key: Subject, i: nat) {
    i < |bs| && bs[i].hour == hour && key in SubjectsIn(bs[i].samples) &&
    (hour, key) in TableOf(start, bs) &&
    var row, all := TableOf(start, bs)[(hour, key)], BucketOf(WrittenIn(bs, hour), key);
    row == BucketOf(bs[i].samples, key) &&
    (row.n == all.n <==> key !in SubjectsIn(WrittenIn(bs[..i], hour))) &&
    (key !in SubjectsIn(WrittenIn(bs[..i], hour)) ==> row == all)
  }

  lemma FreshRow(start: Table, init: seq<Batch>, last: Batch, key: Subject)
    requires key in SubjectsIn(last.samples)
    ensures RowFrom(start, init + [last], last.hour, key, |init|)
  {
    var bs, hour := init + [last], last.hour;
    assert bs[..|init|] == init;
    var w := WrittenIn(init, hour);
    assert WrittenIn(bs, hour) == w + last.samples;
    BucketAppend(w, last.samples, key);
    NoSamples(w, key);
    NoSamples(last.samples, key);
  }

  lemma SameRow(start: Table, init: seq<Batch>, last: Batch, hour: int, key: Subject, i: nat)
    requires RowFrom(start, init, hour, key, i)
    requires last.hour != hour || key !in SubjectsIn(last.samples)
    ensures RowFrom(start, init + [last], hour, key, i)
  {
    var bs := init + [last];
    assert bs[..|init|] == init && bs[..i] == init[..i] && bs[i] == init[i];
    var w := WrittenIn(init, hour);
    if last.hour == hour {
      assert WrittenIn(bs, hour) == w + last.samples;
      BucketAppend(w, last.samples, key);
      NoSamples(last.samples, key);
    } else {
      assert WrittenIn(bs, hour) == w;
    }
  }

  lemma RowStep(start: Table, init: seq<Batch>, last: Batch, hour: int, key: Subject)
    ensures var newer := last.hour == hour && key in SubjectsIn(last.samples);
            ((hour, key) in TableOf(start, init + [last]) <==> newer || (hour, key) in TableOf(start, init)) &&
            (key in SubjectsIn(WrittenIn(init + [last], hour)) <==>
               newer || key in SubjectsIn(WrittenIn(init, hour)))
  {
    assert (init + [last])[..|init|] == init;
    if last.hour == hour {
      SubjectsAppend(WrittenIn(init, hour), last.samples);
    } else {
      assert WrittenIn(init, hour) + [] == WrittenIn(init, hour);
    }
  }

  lemma {:induction false} RowWritten(start: Table, bs: seq<Batch>, hour: int, key: Subject)
    requires (hour, key) !in start
    ensures (hour, key) in TableOf(start, bs) <==> key in SubjectsIn(WrittenIn(bs, hour))
  {
    if bs == [] {
    } else {
      RowWritten(start, bs[..|bs| - 1], hour, key);
      RowStep(start, bs[..|bs| - 1], bs[|bs| - 1], hour, key);
      assert bs == bs[..|bs| - 1] + [bs[|bs| - 1]];
    }
  }

  lemma {:induction false} RowSource(start: Table, bs: seq<Batch>, hour: int, key: Subject) returns (i: nat)
    requires (hour, key) !in start && (hour, key) in TableOf(start, bs)
    ensures RowFrom(start, bs, hour, key, i)
  {
    var init, last := bs[..|bs| - 1], bs[|bs| - 1];
    assert bs == init + [last];
    RowStep(start, init, last, hour, key);
    if last.hour == hour && key in SubjectsIn(last.samples) {
      FreshRow(start, init, last, key);
      i := |init|;
    } else {
      i := RowSource(start, init, hour, key);
      SameRow(start, init, last, hour, key, i);
    }
  }

  /** There is a row exactly when some batch of its hour had a sample of the subject,
      and it describes the last such batch.  What a shutdown in mid-hour breaks is only
      that this batch need not be the hour's whole. */
  lemma RowMeaning(start: Table, bs: seq<Batch>, hour: int, key: Subject)
    requires (hour, key) !in start
    ensures (hour, key) in TableOf(start, bs) <==> key in SubjectsIn(WrittenIn(bs, hour))
    ensures (hour, key) in TableOf(start, bs) ==> exists i :: RowFrom(start, bs, hour, key, i)
  {
    RowWritten(start, bs, hour, key);
    if (hour, key) in TableOf(start, bs) {
      var i := RowSource(start, bs, hour, key);
    }
  }

  /** Without a mid-hour flush no row is ever overwritten, and each is the bucket of
      every sample accepted in its hour. */
  lemma RowsComplete(start: Table, bs: seq<Batch>, hourOf: real -> int, bound: int, hour: int, key: Subject)
    requires InOrder(bs, hourOf, bound, true) && (hour, key) !in start
    ensures (hour, key) in TableOf(start, bs) ==>
              TableOf(start, bs)[(hour, key)] == BucketOf(WrittenIn(bs, hour), key)
    ensures BucketOf(WrittenIn(bs, hour), key).n > 0 ==> (hour, key) in TableOf(start, bs)
  {
    RowWritten(start, bs, hour, key);
    NoSamples(WrittenIn(bs, hour), key);
    if (hour, key) in TableOf(start, bs) {
      var i := RowSource(start, bs, hour, key);
      StrictHours(bs, hourOf, bound, i);
      NothingWritten(bs[..i], hour);
    }
  }

  // -------------------------------------------------------------- one node

  ghost predicate RingOk(ring: seq<Sample>, key: Subject, now: real) {
    && 0 < |ring| <= RING
    && (forall i :: 0 <= i < |ring| ==> ring[i].key == key && ring[i].stamp <= now)
    && (forall i :: 0 < i < |ring| ==> ring[i].stamp - ring[i - 1].stamp >= SAMPLE_GAP_S)
  }

  ghost predicate BucketsOk(hour: map<Subject, Bucket>, open: seq<Sample>) {
    hour.Keys == SubjectsIn(open) && forall key :: key in hour ==> hour[key] == BucketOf(open, key)
  }

  lemma FoldBuckets(hour: map<Subject, Bucket>, open: seq<Sample>, s: Sample)
    requires BucketsOk(hour, open)
    ensures var was := if s.key in hour then hour[s.key] else EMPTY;
            BucketsOk(hour[s.key := was.Add(s.a, s.b, s.active)], open + [s])
  {
    NoSamples(open, s.key);
    assert (open + [s])[..|open|] == open;
    SubjectsAppend(open, [s]);
    assert [s][0] == s;
  }

  ghost predicate RingsOk(rings: map<Subject, seq<Sample>>, now: real) {
    |rings| <= MAX_SUBJECTS && forall key :: key in rings ==> RingOk(rings[key], key, now)
  }

  /** The accumulator without its rings, with the ghost record of what was accepted. */
  datatype State = State(hour: map<Subject, Bucket>, hourTs: Option<int>, table: Table,
                         start: Table, batches: seq<Batch>, open: seq<Sample>, flushed: bool)

  ghost predicate Consistent(s: State, hourOf: real -> int, now: real) {
    && BucketsOk(s.hour, s.open)
    && s.table == TableOf(s.start, s.batches)
    && match s.hourTs
       case None => s.open == [] && s.batches == []
       case Some(h) => h <= hourOf(now) && InHour(s.open, hourOf, h) && InOrder(s.batches, hourOf, h, !s.flushed)
  }

  ghost function Folded(s: State, x: Sample): State {
    var was := if x.key in s.hour then s.hour[x.key] else EMPTY;
    s.(hour := s.hour[x.key := was.Add(x.a, x.b, x.active)], open := s.open + [x])
  }

  /** One write: a batch of the open samples, or nothing. */
  ghost function Written(s: State): State {
    if s.hourTs.None? || s.open == [] then s.(hour := map[], open := []) else
    var b := Batch(s.hourTs.value, s.open);
    s.(hour := map[], open := [], table := s.table + Rows(b), batches := s.batches + [b])
  }

  ghost function Rolled(s: State, current: int): State {
    if s.hourTs.None? then s.(hourTs := Some(current))
    else if s.hourTs == Some(current) then s
    else Written(s).(hourTs := Some(current))
  }

  lemma StillConsistent(s: State, hourOf: real -> int, was: real, now: real)
    requires Consistent(s, hourOf, was) && hourOf(was) <= hourOf(now)
    ensures Consistent(s, hourOf, now)
  {
  }

  lemma FoldStep(s: State, hourOf: real -> int, now: real, x: Sample)
    requires Consistent(s, hourOf, now) && s.hourTs == Some(hourOf(x.stamp)) && hourOf(now) <= hourOf(x.stamp)
    ensures Consistent(Folded(s, x), hourOf, x.stamp)
  {
    FoldBuckets(s.hour, s.open, x);
  }

  lemma OneMoreBatch(start: Table, bs: seq<Batch>, b: Batch, hourOf: real -> int, bound: int, strict: bool)
    requires InOrder(bs, hourOf, b.hour, strict) && InHour(b.samples, hourOf, b.hour) && b.samples != []
    requires if strict then b.hour < bound else b.hour <= bound
    ensures InOrder(bs + [b], hourOf, bound, strict)
    ensures TableOf(start, bs + [b]) == TableOf(start, bs) + Rows(b)
    ensures Accepted(bs + [b]) == Accepted(bs) + b.samples
  {
    assert (bs + [b])[..|bs|] == bs;
  }

  lemma WriteStep(s: State, hourOf: real -> int, now: real, bound: int, strict: bool)
    requires Consistent(s, hourOf, now) && s.hourTs.Some?
    requires if strict then s.hourTs.value < bound && !s.flushed else s.hourTs.value <= bound
    ensures var w := Written(s);
            BucketsOk(w.hour, w.open) && w.open == [] && w.table == TableOf(w.start, w.batches) &&
            InOrder(w.batches, hourOf, bound, strict) &&
            Accepted(w.batches) == Accepted(s.batches) + s.open
  {
    var h := s.hourTs.value;
    OrderLoosens(s.batches, hourOf, h, !s.flushed, h);
    OrderLoosens(s.batches, hourOf, h, !s.flushed, bound);
    if s.open == [] {
      assert Accepted(s.batches) + [] == Accepted(s.batches);
    } else {
      OneMoreBatch(s.start, s.batches, Batch(h, s.open), hourOf, bound, strict);
    }
  }

  lemma RollStep(s: State, hourOf: real -> int, was: real, now: real)
    requires Consistent(s, hourOf, was) && hourOf(was) <= hourOf(now)
    ensures Consistent(Rolled(s, hourOf(now)), hourOf, now)
    ensures var r := Rolled(s, hourOf(now)); Accepted(r.batches) + r.open == Accepted(s.batches) + s.open
  {
    if s.hourTs.Some? && s.hourTs.value != hourOf(now) {
      WriteStep(s, hourOf, was, hourOf(now), !s.flushed);
      assert Accepted(Written(s).batches) + [] == Accepted(Written(s).batches);
    }
  }

  lemma FlushStep(s: State, hourOf: real -> int, now: real)
    requires Consistent(s, hourOf, now)
    ensures Consistent(Written(s).(flushed := true), hourOf, now)
    ensures Accepted(Written(s).batches) == Accepted(s.batches) + s.open
  {
    if s.hourTs.Some? {
      WriteStep(s, hourOf, now, s.hourTs.value, false);
    }
  }

  /** Conservation: in any reachable state without a mid-hour flush, an accepted sample
      is in the open bucket of its subject or in the one row of its hour and subject,
      and each row and each open bucket is the bucket of exactly its hour's samples. */
  lemma EverySampleCountedOnce(s: State, hourOf: real -> int, now: real, hour: int, key: Subject)
    requires Consistent(s, hourOf, now) && !s.flushed && (hour, key) !in s.start
    ensures BucketOf(WrittenIn(s.batches, hour), key).n > 0 <==> (hour, key) in s.table
    ensures (hour, key) in s.table ==> s.table[(hour, key)] == BucketOf(WrittenIn(s.batches, hour), key)
    ensures key in s.hour ==>
              s.hourTs.Some? && s.hour[key] == BucketOf(s.open, key) && WrittenIn(s.batches, s.hourTs.value) == []
  {
    match s.hourTs
    case None =>
      assert s.hour == map[];
    case Some(h) =>
      RowMeaning(s.start, s.batches, hour, key);
      RowsComplete(s.start, s.batches, hourOf, h, hour, key);
      NoSamples(WrittenIn(s.batches, hour), key);
      StrictHours(s.batches, hourOf, h, |s.batches|);
      NothingWritten(s.batches, h);
  }

  /** The samples written for an hour are all of the written ones that fell in it. */
  lemma {:induction false} WrittenEqual(bs: seq<Batch>, hourOf: real -> int, hour: int, bound: int, strict: bool)
    requires InOrder(bs, hourOf, bound, strict)
    ensures WrittenIn(bs, hour) == OfHour(Accepted(bs), hourOf, hour)
  {
    if bs == [] {
    } else {
      var init, last := bs[..|bs| - 1], bs[|bs| - 1];
      WrittenEqual(init, hourOf, hour, last.hour, strict);
      OfHourAppend(Accepted(init), last.samples, hourOf, hour);
      OfHourAll(last.samples, hourOf, hour, last.hour);
    }
  }

  ghost function OfHour(ss: seq<Sample>, hourOf: real -> int, hour: int): seq<Sample> {
    if ss == [] then [] else
    OfHour(ss[..|ss| - 1], hourOf, hour)
    + if hourOf(ss[|ss| - 1].stamp) == hour then [ss[|ss| - 1]] else []
  }

  lemma {:induction false} OfHourAppend(ss: seq<Sample>, ts: seq<Sample>, hourOf: real -> int, hour: int)
    ensures OfHour(ss + ts, hourOf, hour) == OfHour(ss, hourOf, hour) + OfHour(ts, hourOf, hour)
  {
    if ts == [] {
      assert ss + ts == ss;
    } else {
      OfHourAppend(ss, ts[..|ts| - 1], hourOf, hour);
      assert (ss + ts)[..|ss + ts| - 1] == ss + ts[..|ts| - 1];
    }
  }

  lemma {:induction false} OfHourAll(ss: seq<Sample>, hourOf: real -> int, hour: int, own: int)
    requires InHour(ss, hourOf, own)
    ensures OfHour(ss, hourOf, hour) == if hour == own then ss else []
  {
    if ss == [] {
    } else {
      OfHourAll(ss[..|ss| - 1], hourOf, hour, own);
    }
  }

  ghost function FoldAll(s: State, xs: seq<Sample>): State {
    if xs == [] then s else Folded(FoldAll(s, xs[..|xs| - 1]), xs[|xs| - 1])
  }

  lemma {:induction false} FoldAllOpens(s: State, xs: seq<Sample>)
    requires BucketsOk(s.hour, s.open)
    ensures var f := FoldAll(s, xs);
            BucketsOk(f.hour, f.open) && f.open == s.open + xs && f.hourTs == s.hourTs
  {
    if xs == [] {
      assert s.open + xs == s.open;
    } else {
      var init, x := xs[..|xs| - 1], xs[|xs| - 1];
      FoldAllOpens(s, init);
      FoldBuckets(FoldAll(s, init).hour, s.open + init, x);
      assert s.open + xs == s.open + init + [x];
    }
  }

  /** What goes on after a shutdown in mid-hour: the same accumulator, or, after a restart,
      an empty one over the table that the shutdown left. */
  ghost function Resumed(s: State, restart: bool): State
    requires s.hourTs.Some?
  {
    var w := Written(s).(flushed := true);
    if restart then State(map[], s.hourTs, w.table, w.table, [], [], false) else w
  }

  /** From any state without a flush so far in which a subject has an open bucket: shut
      down, accept any later samples of the same hour, one of the subject's among them,
      and let the hour turn.  The row then describes the later samples only, and is short
      by exactly what the open bucket held. */
  lemma MidHourFlushLosesSamples(s: State, hourOf: real -> int, now: real, key: Subject, more: seq<Sample>,
                                 restart: bool, next: int)
    requires Consistent(s, hourOf, now) && !s.flushed && key in s.hour
    requires InHour(more, hourOf, s.hourTs.value) && key in SubjectsIn(more) && next != s.hourTs.value
    ensures var h := s.hourTs.value;
            var table := Rolled(FoldAll(Resumed(s, restart), more), next).table;
            var all := OfHour(Accepted(s.batches) + s.open + more, hourOf, h);
            (h, key) in table && table[(h, key)] == BucketOf(more, key) &&
            table[(h, key)].n + s.hour[key].n == BucketOf(all, key).n && s.hour[key].n > 0
  {
    ResumedHolds(s, restart, more);
    LaterRow(FoldAll(Resumed(s, restart), more), more, key, next);
    HourSoFar(s, hourOf, now, more);
    BucketAppend(s.open, more, key);
    NoSamples(s.open, key);
  }

  lemma ResumedHolds(s: State, restart: bool, more: seq<Sample>)
    requires s.hourTs.Some?
    ensures var f := FoldAll(Resumed(s, restart), more); f.open == more && f.hourTs == s.hourTs
  {
    var r := Resumed(s, restart);
    assert r.hour == map[] && r.open == [] && SubjectsIn([]) == {};
    FoldAllOpens(r, more);
    assert [] + more == more;
  }

  lemma LaterRow(f: State, more: seq<Sample>, key: Subject, next: int)
    requires f.hourTs.Some? && f.hourTs.value != next && f.open == more && key in SubjectsIn(more)
    ensures var h, table := f.hourTs.value, Rolled(f, next).table;
            (h, key) in table && table[(h, key)] == BucketOf(more, key)
  {
    var rows := Rows(Batch(f.hourTs.value, more));
    assert (f.hourTs.value, key) in rows && rows[(f.hourTs.value, key)] == BucketOf(more, key);
    assert more != [];
  }

  /** All samples of the open hour are the open ones and what follows. */
  lemma HourSoFar(s: State, hourOf: real -> int, now: real, more: seq<Sample>)
    requires Consistent(s, hourOf, now) && !s.flushed && s.hourTs.Some? && InHour(more, hourOf, s.hourTs.value)
    ensures OfHour(Accepted(s.batches) + s.open + more, hourOf, s.hourTs.value) == s.open + more
  {
    var h, past := s.hourTs.value, Accepted(s.batches);
    WrittenEqual(s.batches, hourOf, h, h, true);
    StrictHours(s.batches, hourOf, h, |s.batches|);
    NothingWritten(s.batches, h);
    OfHourAppend(past + s.open, more, hourOf, h);
    OfHourAppend(past, s.open, hourOf, h);
    OfHourAll(s.open, hourOf, h, h);
    OfHourAll(more, hourOf, h, h);
    assert [] + s.open == s.open;
  }

  /** Is there room for a sample of the subject at that time? */
  predicate Admits(rings: map<Subject, seq<Sample>>, key: Subject, now: real) {
    if key in rings then rings[key] != [] && now - rings[key][|rings[key]| - 1].stamp >= SAMPLE_GAP_S
    else |rings| < MAX_SUBJECTS
  }

  /** `deque(maxlen=RING).append`: the newest 120 stay. */
  function Appended(ring: seq<Sample>, s: Sample): seq<Sample> {
    var longer := ring + [s];
    if |longer| > RING then longer[|longer| - RING..] else longer
  }

  /** The subject's ring with one sample more; the others as they are. */
  function Ringed(rings: map<Subject, seq<Sample>>, s: Sample): map<Subject, seq<Sample>> {
    rings[s.key := Appended(if s.key in rings then rings[s.key] else [], s)]
  }

  /** The last 120 of a list, or all of it. */
  ghost predicate Newest(longer: seq<Sample>, ring: seq<Sample>) {
    && |ring| == (if |longer| > 120 then 120 else |longer|)
    && forall i :: 0 <= i < |ring| ==> ring[i] == longer[|longer| - |ring| + i]
  }

  /** The sample ends its subject's ring, the oldest gone past 120; no other ring moves. */
  ghost predicate EndsRing(was: map<Subject, seq<Sample>>, now: map<Subject, seq<Sample>>, s: Sample) {
    && now.Keys == was.Keys + {s.key}
    && Newest((if s.key in was then was[s.key] else []) + [s], now[s.key])
    && forall k :: k in was && k != s.key ==> now[k] == was[k]
  }

  /** What a write did: a batch of the open samples is on record, if there were any; each
      subject among them has the row of that hour, which sums them up; no other row moves. */
  ghost predicate Wrote(was: State, now: State) {
    && now.open == [] && now.hour == map[]
    && (was.open == [] || was.hourTs.None? ==> now.batches == was.batches && now.table == was.table)
    && (was.open != [] && was.hourTs.Some? ==>
          && now.batches == was.batches + [Batch(was.hourTs.value, was.open)]
          && (forall k :: k in now.table <==>
                k in was.table || (k.0 == was.hourTs.value && k.1 in SubjectsIn(was.open)))
          && (forall k :: k in now.table ==>
                if k.0 == was.hourTs.value && k.1 in SubjectsIn(was.open)
                then Summarises(now.table[k], was.open, k.1) else now.table[k] == was.table[k]))
  }

  /** The open hour is closed and written exactly when it is another one by now. */
  ghost predicate Turned(was: State, now: State, current: int) {
    && now.hourTs == Some(current) && now.start == was.start && now.flushed == was.flushed
    && if was.hourTs.Some? && was.hourTs.value != current then Wrote(was, now)
       else now == was.(hourTs := Some(current))
  }

  lemma WrittenWrote(s: State)
    ensures Wrote(s, Written(s))
  {
    if s.open != [] && s.hourTs.Some? {
      forall k | k in SubjectsIn(s.open) ensures Summarises(BucketOf(s.open, k), s.open, k) {
        BucketMeaning(s.open, k);
      }
    }
  }

  lemma FlushedWrote(s: State)
    ensures Wrote(s, Written(s).(flushed := true))
  {
    WrittenWrote(s);
  }

  lemma FoldedTook(s: State, x: Sample)
    requires BucketsOk(s.hour, s.open)
    ensures Took(s, Folded(s, x), x)
  {
    FoldBuckets(s.hour, s.open, x);
    BucketMeaning(s.open + [x], x.key);
  }

  lemma RolledTurns(s: State, current: int)
    ensures Turned(s, Rolled(s, current), current)
  {
    WrittenWrote(s);
  }

  /** One sample more in the open hour, and nothing else. */
  ghost predicate Took(was: State, now: State, s: Sample) {
    && now.open == was.open + [s] && now.hour.Keys == was.hour.Keys + {s.key}
    && (forall k :: k in was.hour && k != s.key ==> now.hour[k] == was.hour[k])
    && Summarises(now.hour[s.key], now.open, s.key)
    && now.(open := was.open, hour := was.hour) == was
  }

  /** The subjects not heard of for two hours. */
  function Idle(seen: map<Subject, real>, now: real): set<Subject> {
    set key | key in seen && now - seen[key] > SUBJECT_IDLE_S
  }

  predicate Turns(s: State, current: int) {
    s.hourTs.Some? && s.hourTs != Some(current)
  }

  class Node {
    const hourOf: real -> int
    var rings: map<Subject, seq<Sample>>
    var seen: map<Subject, real>
    var hour: map<Subject, Bucket>
    var hourTs: Option<int>
    var table: Table
    /** The same with what was accepted and written so far. */
    ghost var record: State
    ghost var lastNow: real

    ghost predicate Tied()
      reads this
    {
      hour == record.hour && hourTs == record.hourTs && table == record.table
    }

    ghost predicate Valid()
      reads this
    {
      RingsOk(rings, lastNow) && Tied() && Consistent(record, hourOf, lastNow)
    }

    constructor (hourOf: real -> int, table: Table, now: real)
      ensures Valid() && this.hourOf == hourOf && lastNow == now && rings == map[] && seen == map[]
      ensures record == State(map[], None, table, table, [], [], false)
    {
      this.hourOf := hourOf;
      rings, seen, hour, hourTs, this.table := map[], map[], map[], None, table;
      record, lastNow := State(map[], None, table, table, [], [], false), now;
    }

    /** One sample: at most one per subject per gap, and a bound on new subjects. */
    method Fold(key: Subject, a: real, b: real, now: real) returns (accepted: bool)
      requires Valid() && now >= lastNow && hourTs == Some(hourOf(now)) && hourOf(lastNow) <= hourOf(now)
      modifies this
      ensures Valid() && lastNow == now
      ensures accepted <==> Admits(old(rings), key, now)
      // An accepted sample is active exactly above its kind's noise, goes into its
      // subject's bucket and ends its ring.
      ensures var s := Sample(key, now, a, b, Busy(key.kind, a, b));
              if accepted then
                record == Folded(old(record), s) && Took(old(record), record, s) && EndsRing(old(rings), rings, s)
              else record == old(record) && rings == old(rings)
      ensures seen == if accepted then old(seen)[key := now] else old(seen)
    {
      var s := Sample(key, now, a, b, IsActive(key.kind, a, b));
      ghost var before := lastNow;
      accepted := Ring(s);
      ActiveIsBusy(key.kind, a, b);
      if accepted {
        Count(s, before);
      } else {
        StillConsistent(record, hourOf, before, now);
      }
    }

    /** The bucket half of a fold. */
    method Count(s: Sample, ghost before: real)
      requires Tied() && Consistent(record, hourOf, before)
      requires hourTs == Some(hourOf(s.stamp)) && hourOf(before) <= hourOf(s.stamp)
      modifies this`hour, this`record
      ensures Tied() && record == Folded(old(record), s) && Consistent(record, hourOf, s.stamp)
      ensures Took(old(record), record, s)
    {
      FoldStep(record, hourOf, before, s);
      FoldedTook(record, s);
      var bucket := if s.key in hour then hour[s.key] else EMPTY;
      hour := hour[s.key := bucket.Add(s.a, s.b, s.active)];
      record := Folded(record, s);
    }

    /** The ring half of a fold, which decides. */
    method Ring(s: Sample) returns (accepted: bool)
      requires RingsOk(rings, lastNow) && s.stamp >= lastNow
      modifies this`rings, this`seen, this`lastNow
      ensures RingsOk(rings, lastNow) && lastNow == s.stamp
      ensures accepted <==> Admits(old(rings), s.key, s.stamp)
      ensures s.key !in old(rings) ==> (accepted <==> |old(rings)| < 400)
      ensures s.key in old(rings) ==>
                (accepted <==>
                   forall i :: 0 <= i < |old(rings)[s.key]| ==> s.stamp - old(rings)[s.key][i].stamp >= 20.0)
      ensures rings == if accepted then Ringed(old(rings), s) else old(rings)
      ensures accepted ==> EndsRing(old(rings), rings, s)
      ensures seen == if accepted then old(seen)[s.key := s.stamp] else old(seen)
    {
      LaterRings(rings, lastNow, s.stamp);
      ghost var before := lastNow;
      lastNow := s.stamp;
      accepted := HasRoom(s);
      if s.key in rings {
        NewestDecides(rings[s.key], s.key, before, s.stamp);
      }
      if accepted {
        RingStep(rings, before, s);
        RingedEnds(rings, s);
        var ring := if s.key in rings then rings[s.key] else [];
        rings := rings[s.key := Appended(ring, s)];
        seen := seen[s.key := s.stamp];
      }
    }

    method HasRoom(s: Sample) returns (room: bool)
      requires forall key :: key in rings ==> rings[key] != []
      ensures room == Admits(rings, s.key, s.stamp)
    {
      if s.key !in rings {
        return |rings| < MAX_SUBJECTS;
      }
      var ring := rings[s.key];
      return s.stamp - ring[|ring| - 1].stamp >= SAMPLE_GAP_S;
    }

    /** Write the open buckets, one row each, and start afresh. */
    method Write()
      requires Tied() && BucketsOk(record.hour, record.open)
      modifies this`hour, this`table, this`record
      ensures Tied() && record == Written(old(record))
    {
      OpenIffBuckets(hour, record.open);
      if hourTs.Some? && hour != map[] {
        BucketsAreRows(hour, record.open, hourTs.value);
        table := table + RowsOf(hour, hourTs.value);
      }
      hour, record := map[], Written(record);
    }

    /** Close the hour when it turns, and forget subjects long gone. */
    method Roll(now: real)
      requires Valid() && now >= lastNow && hourOf(lastNow) <= hourOf(now)
      modifies this
      ensures Valid() && lastNow == now && record == Rolled(old(record), hourOf(now))
      ensures !Turns(old(record), hourOf(now)) ==> rings == old(rings) && seen == old(seen)
      ensures Turns(old(record), hourOf(now)) ==>
                rings == old(rings) - Idle(old(seen), now) && seen == old(seen) - Idle(old(seen), now)
      ensures old(hourTs).Some? && old(hourTs).value != hourOf(now) ==>
                forall k :: k in rings <==> k in old(rings) && !(k in old(seen) && now - old(seen)[k] > 7200.0)
      ensures Turned(old(record), record, hourOf(now))
    {
      ghost var was := lastNow;
      var turned := RollBuckets(now);
      RollRings(turned, was, now);
      RolledTurns(old(record), hourOf(now));
    }

    /** The ring half: a turned hour is the time to forget. */
    method RollRings(turned: bool, ghost was: real, now: real)
      requires RingsOk(rings, was) && was <= now
      modifies this`seen, this`rings
      ensures RingsOk(rings, now)
      ensures !turned ==> rings == old(rings) && seen == old(seen)
      ensures turned ==> rings == old(rings) - Idle(old(seen), now) && seen == old(seen) - Idle(old(seen), now)
    {
      LaterRings(rings, was, now);
      if turned {
        ForgetIdle(now);
      }
    }

    /** The bucket half of a roll: true when an hour was closed. */
    method RollBuckets(now: real) returns (turned: bool)
      requires Tied() && Consistent(record, hourOf, lastNow) && hourOf(lastNow) <= hourOf(now)
      modifies this`hour, this`table, this`hourTs, this`record, this`lastNow
      ensures Tied() && Consistent(record, hourOf, now) && lastNow == now
      ensures record == Rolled(old(record), hourOf(now)) && turned == Turns(old(record), hourOf(now))
    {
      RollStep(record, hourOf, lastNow, now);
      lastNow := now;
      turned := TurnHour(hourOf(now));
    }

    method TurnHour(current: int) returns (turned: bool)
      requires Tied() && BucketsOk(record.hour, record.open)
      modifies this`hour, this`table, this`hourTs, this`record
      ensures Tied() && record == Rolled(old(record), current) && turned == Turns(old(record), current)
    {
      if hourTs.None? {
        hourTs, record := Some(current), record.(hourTs := Some(current));
        return false;
      }
      if hourTs == Some(current) {
        return false;
      }
      Write();
      hourTs, record := Some(current), record.(hourTs := Some(current));
      return true;
    }

    /** Drop the rings of subjects not heard of for two hours, and only those. */
    method ForgetIdle(now: real)
      requires RingsOk(rings, now)
      modifies this`seen, this`rings
      ensures RingsOk(rings, now)
      ensures rings == old(rings) - Idle(old(seen), now) && seen == old(seen) - Idle(old(seen), now)
    {
      var stale := Idle(seen, now);
      FewerRings(rings, stale, now);
      seen := seen - stale;
      rings := rings - stale;
    }

    /** Shutdown: the open buckets are written although the hour is not over. */
    method Flush()
      requires Valid()
      modifies this`hour, this`table, this`record
      ensures Valid() && record == Written(old(record)).(flushed := true)
      ensures record.flushed && Wrote(old(record), record)
    {
      FlushStep(record, hourOf, lastNow);
      FlushedWrote(record);
      Write();
      record := record.(flushed := true);
    }

    /** A gap in the reports, or a reboot: the rings no longer show one run. */
    method ClearRings()
      requires Valid()
      modifies this`rings
      ensures Valid() && rings == map[]
    {
      rings := map[];
    }
  }

  /** What one write puts into the table. */
  function RowsOf(hour: map<Subject, Bucket>, ts: int): Table {
    map key | key in hour :: (ts, key) := hour[key]
  }

  lemma BucketsAreRows(hour: map<Subject, Bucket>, open: seq<Sample>, ts: int)
    requires BucketsOk(hour, open)
    ensures RowsOf(hour, ts) == Rows(Batch(ts, open))
  {
  }

  lemma OpenIffBuckets(hour: map<Subject, Bucket>, open: seq<Sample>)
    requires BucketsOk(hour, open)
    ensures hour == map[] <==> open == []
  {
    if open != [] {
      assert open[0].key in SubjectsIn(open);
    }
  }

  /** Appending a sample a gap later, dropping the oldest past the bound. */
  lemma RingStep(rings: map<Subject, seq<Sample>>, was: real, s: Sample)
    requires RingsOk(rings, was) && was <= s.stamp && Admits(rings, s.key, s.stamp)
    ensures RingsOk(Ringed(rings, s), s.stamp)
  {
    var ring := if s.key in rings then rings[s.key] else [];
    LaterRings(rings, was, s.stamp);
    GrownRing(ring, s);
    ReplaceRing(rings, s.key, Appended(ring, s), s.stamp);
  }

  lemma NewestDecides(ring: seq<Sample>, key: Subject, was: real, now: real)
    requires RingOk(ring, key, was)
    ensures now - ring[|ring| - 1].stamp >= 20.0 <==> forall i :: 0 <= i < |ring| ==> now - ring[i].stamp >= 20.0
  {
    RingRises(ring, key, was, |ring| - 1);
  }

  lemma {:induction false} RingRises(ring: seq<Sample>, key: Subject, now: real, j: nat)
    requires RingOk(ring, key, now) && j < |ring|
    ensures forall i :: 0 <= i <= j ==> ring[i].stamp <= ring[j].stamp
  {
    if j > 0 {
      RingRises(ring, key, now, j - 1);
      assert ring[j].stamp - ring[j - 1].stamp >= SAMPLE_GAP_S;
    }
  }

  lemma RingedEnds(rings: map<Subject, seq<Sample>>, s: Sample)
    ensures EndsRing(rings, Ringed(rings, s), s)
  {
    var ring := if s.key in rings then rings[s.key] else [];
    assert Newest(ring + [s], Appended(ring, s));
  }

  lemma ReplaceRing(rings: map<Subject, seq<Sample>>, key: Subject, ring: seq<Sample>, now: real)
    requires RingsOk(rings, now) && RingOk(ring, key, now)
    requires key in rings || |rings| < MAX_SUBJECTS
    ensures RingsOk(rings[key := ring], now)
  {
    var grown := rings[key := ring];
    assert grown.Keys == rings.Keys + {key};
    assert |rings.Keys| == |rings| && |grown.Keys| == |grown|;
  }

  lemma GrownRing(ring: seq<Sample>, s: Sample)
    requires ring == [] || (RingOk(ring, s.key, s.stamp) && s.stamp - ring[|ring| - 1].stamp >= SAMPLE_GAP_S)
    ensures RingOk(Appended(ring, s), s.key, s.stamp)
  {
  }

  lemma LaterRings(rings: map<Subject, seq<Sample>>, was: real, now: real)
    requires RingsOk(rings, was) && was <= now
    ensures RingsOk(rings, now)
  {
    forall key | key in rings ensures RingOk(rings[key], key, now) {
    }
  }

  lemma FewerRings(rings: map<Subject, seq<Sample>>, gone: set<Subject>, now: real)
    requires RingsOk(rings, now)
    ensures RingsOk(rings - gone, now)
  {
    assert (rings - gone).Keys == rings.Keys - gone;
    assert |rings.Keys| == |rings| && |(rings - gone).Keys| == |rings - gone|;
  }
}
