/** Verdicts on actions: the three kinds of watch and the table that keeps them
    (`_Watch`, `_OutageWatch`, `_PulseWatch`, `ActionVerifier`).  A watch keeps running
    books over its samples; here they are proved equal to statements about the whole
    trace, and each outcome to a statement about how the watched keys came and went. */
module Verdict {
  import opened Prelude

  datatype Kind = Process | Outage | Pulse

  function Window(k: Kind): nat {
    if k.Process? then 20 else 3
  }

  function MinSeconds(k: Kind): real {
    match k case Process => 30.0 case Outage => 60.0 case Pulse => 300.0
  }

  function MaxSeconds(k: Kind): real {
    match k case Process => 120.0 case Outage => 240.0 case Pulse => 2700.0
  }

  const KEEP_SECONDS: real := 900.0
  const RESOURCES: set<string> := {"cpu", "memory", "disk", "gpu"}
  const PARTLY: real := 0.2

  /** One frame: the keys it reports as active (and unexpected), and the pressures. */
  datatype Sample = Sample(now: real, active: set<string>, pressures: map<string, real>)

  datatype Target = Target(key: string, resource: Option<string>)

  datatype Outcome = Moot | Unknown | Helped | Partial | NoChange
                   | Fixed | Recurred | CameBack | WentQuietAgain | StillQuiet

  // ------------------------------------------------------------ the targets

  /** A finding of the baseline diagnosis; `pids` are those of its culprits. */
  datatype Finding = Finding(target: Target, active: bool, expected: bool, pids: seq<int>)

  predicate Names(f: Finding, pid: Option<int>) {
    pid.Some? && pid.value in f.pids
  }

  function Wanted(fs: seq<Finding>, pid: Option<int>, onlyNaming: bool): seq<Target> {
    if fs == [] then [] else
    var f := fs[|fs| - 1];
    Wanted(fs[..|fs| - 1], pid, onlyNaming) +
    if f.active && !f.expected && (onlyNaming ==> Names(f, pid)) then [f.target] else []
  }

  /** The findings that count, and among them those that name the process. */
  ghost function Hot(fs: seq<Finding>): seq<Finding> {
    Filter(fs, (f: Finding) => f.active && !f.expected)
  }

  ghost function Naming(fs: seq<Finding>, pid: Option<int>): seq<Finding> {
    Filter(fs, (f: Finding) => f.active && !f.expected && pid.Some? && pid.value in f.pids)
  }

  /** What is watched are their targets, in order. */
  ghost predicate TargetsFrom(ts: seq<Target>, fs: seq<Finding>) {
    |ts| == |fs| && forall i :: 0 <= i < |ts| ==> ts[i] == fs[i].target
  }

  lemma {:induction false} WantedFrom(fs: seq<Finding>, pid: Option<int>)
    ensures TargetsFrom(Wanted(fs, pid, false), Hot(fs)) && TargetsFrom(Wanted(fs, pid, true), Naming(fs, pid))
  {
    if fs == [] {
    } else {
      WantedFrom(fs[..|fs| - 1], pid);
    }
  }

  /** The active, unexpected findings; only those naming the process, if any does. */
  method TargetsOf(fs: seq<Finding>, pid: Option<int>) returns (ts: seq<Target>)
    ensures TargetsFrom(ts, if Naming(fs, pid) != [] then Naming(fs, pid) else Hot(fs))
    ensures ts == Wanted(fs, pid, exists i :: 0 <= i < |fs| && fs[i].active && !fs[i].expected && Names(fs[i], pid))
  {
    var all: seq<Target> := [];
    var naming: seq<Target> := [];
    for i := 0 to |fs|
      invariant all == Wanted(fs[..i], pid, false) && naming == Wanted(fs[..i], pid, true)
      invariant naming != [] <==> exists j :: 0 <= j < i && fs[j].active && !fs[j].expected && Names(fs[j], pid)
    {
      assert fs[..i + 1][..i] == fs[..i];
      var f := fs[i];
      if f.active && !f.expected {
        all := all + [f.target];
        if Names(f, pid) {
          naming := naming + [f.target];
        }
      }
    }
    assert fs[..|fs|] == fs;
    WantedFrom(fs, pid);
    ts := if naming != [] then naming else all;
  }

  // ------------------------------------------------- what the trace says

  predicate Reads(s: Sample, key: string) {
    key in s.active
  }

  /** When the unbroken absence that ends the trace began, if the key is absent now. */
  ghost function ClearedSince(ss: seq<Sample>, key: string): Option<real> {
    if ss == [] || Reads(ss[|ss| - 1], key) then None else
    var before := ClearedSince(ss[..|ss| - 1], key);
    if before.Some? then before else Some(ss[|ss| - 1].now)
  }

  /** Absent in one sample, back in the next. */
  ghost function CameBackEver(ss: seq<Sample>, key: string): bool {
    ss != [] &&
    (CameBackEver(ss[..|ss| - 1], key) ||
     (Reads(ss[|ss| - 1], key) && ClearedSince(ss[..|ss| - 1], key).Some?))
  }

  ghost predicate AbsentFrom(ss: seq<Sample>, key: string, i: nat) {
    forall j :: i <= j < |ss| ==> !Reads(ss[j], key)
  }

  ghost predicate PresentUpTo(ss: seq<Sample>, key: string, i: nat) {
    forall j :: 0 <= j < i && j < |ss| ==> Reads(ss[j], key)
  }

  /** `i` is where the maximal absent suffix starts. */
  ghost predicate LastSeenBefore(ss: seq<Sample>, key: string, i: int) {
    0 <= i < |ss| && AbsentFrom(ss, key, i) && (i > 0 ==> Reads(ss[i - 1], key))
  }

  lemma {:induction false} ClearedMeaning(ss: seq<Sample>, key: string)
    ensures ClearedSince(ss, key).Some? <==> ss != [] && !Reads(ss[|ss| - 1], key)
    ensures ClearedSince(ss, key).Some? ==>
              exists i :: LastSeenBefore(ss, key, i) && ClearedSince(ss, key) == Some(ss[i].now)
  {
    if ss != [] && !Reads(ss[|ss| - 1], key) {
      var init := ss[..|ss| - 1];
      ClearedMeaning(init, key);
      if ClearedSince(init, key).Some? {
        var i :| LastSeenBefore(init, key, i) && ClearedSince(init, key) == Some(init[i].now);
        assert LastSeenBefore(ss, key, i);
      } else {
        assert LastSeenBefore(ss, key, |ss| - 1);
      }
    }
  }

  lemma {:induction false} CameBackFound(ss: seq<Sample>, key: string) returns (i: nat, j: nat)
    requires CameBackEver(ss, key)
    ensures i < j < |ss| && !Reads(ss[i], key) && Reads(ss[j], key)
  {
    var n := |ss| - 1;
    if CameBackEver(ss[..n], key) {
      i, j := CameBackFound(ss[..n], key);
    } else {
      ClearedMeaning(ss[..n], key);
      i, j := n - 1, n;
    }
  }

  lemma {:induction false} CameBackSeen(ss: seq<Sample>, key: string, i: nat, j: nat)
    requires i < j < |ss| && !Reads(ss[i], key) && Reads(ss[j], key)
    ensures CameBackEver(ss, key)
  {
    var n := |ss| - 1;
    ClearedMeaning(ss[..n], key);
    if j < n {
      CameBackSeen(ss[..n], key, i, j);
    } else if Reads(ss[n - 1], key) {
      CameBackSeen(ss[..n], key, i, n - 1);
    }
  }

  lemma CameBackMeaning(ss: seq<Sample>, key: string)
    ensures CameBackEver(ss, key) <==>
              exists i, j :: 0 <= i < j < |ss| && !Reads(ss[i], key) && Reads(ss[j], key)
  {
    if CameBackEver(ss, key) {
      var i, j := CameBackFound(ss, key);
    }
    if i, j :| 0 <= i < j < |ss| && !Reads(ss[i], key) && Reads(ss[j], key) {
      CameBackSeen(ss, key, i, j);
    }
  }

  // --------------------------------------------------------- the judgement

  /** Pressure that fell by at least a fifth on some watched resource. */
  ghost predicate Relieved(ts: seq<Target>, base: map<string, real>, latest: map<string, real>) {
    exists r :: Watched(ts, r) && FellBy(base, latest, r, PARTLY)
  }

  ghost predicate Watched(ts: seq<Target>, r: string) {
    r in RESOURCES && exists i :: 0 <= i < |ts| && ts[i].resource == Some(r)
  }

  predicate FellBy(base: map<string, real>, latest: map<string, real>, r: string, share: real) {
    r in base && r in latest && base[r] > 0.0 && latest[r] <= base[r] - share * base[r]
  }

  ghost predicate Gone(ts: seq<Target>, ss: seq<Sample>, i: nat)
    requires i < |ts|
  {
    ClearedSince(ss, ts[i].key).Some?
  }

  /** The specification of a verdict, from the trace alone. */
  ghost function Judged(kind: Kind, ts: seq<Target>, base: map<string, real>, ss: seq<Sample>): Outcome {
    if ts == [] then Moot
    else if ss == [] then Unknown
    else if kind != Process && exists i :: 0 <= i < |ts| && CameBackEver(ss, ts[i].key) then
      if kind.Outage? then Recurred else WentQuietAgain
    else if forall i :: 0 <= i < |ts| ==> Gone(ts, ss, i) then
      match kind case Process => Helped case Outage => Fixed case Pulse => CameBack
    else if (exists i :: 0 <= i < |ts| && Gone(ts, ss, i)) ||
            (kind.Process? && Relieved(ts, base, ss[|ss| - 1].pressures)) then Partial
    else if kind.Pulse? then StillQuiet
    else NoChange
  }

  /** What the words mean for a unit action: fixed (or busy again) says that every item
      was there, went, and stayed away; no change that none was ever missing. */
  lemma UnitOutcomes(kind: Kind, ts: seq<Target>, base: map<string, real>, ss: seq<Sample>)
    requires kind != Process && ts != [] && ss != []
    ensures var o := Judged(kind, ts, base, ss);
            (o == Fixed || o == CameBack <==>
               forall i :: 0 <= i < |ts| ==> StayedAway(ss, ts[i].key)) &&
            (o == Recurred || o == WentQuietAgain <==>
               exists i :: 0 <= i < |ts| && Returned(ss, ts[i].key)) &&
            (o == NoChange || o == StillQuiet <==>
               forall i :: 0 <= i < |ts| ==> PresentUpTo(ss, ts[i].key, |ss|))
  {
    forall i | 0 <= i < |ts|
      ensures CameBackEver(ss, ts[i].key) <==> Returned(ss, ts[i].key)
      ensures !CameBackEver(ss, ts[i].key) ==>
                if Gone(ts, ss, i) then StayedAway(ss, ts[i].key) else PresentUpTo(ss, ts[i].key, |ss|)
      ensures StayedAway(ss, ts[i].key) ==> Gone(ts, ss, i) && !CameBackEver(ss, ts[i].key)
      ensures PresentUpTo(ss, ts[i].key, |ss|) ==> !Gone(ts, ss, i) && !CameBackEver(ss, ts[i].key)
    {
      OneKey(ss, ts[i].key);
    }
    var o := Judged(kind, ts, base, ss);
    if o == NoChange || o == StillQuiet {
      forall i | 0 <= i < |ts| ensures PresentUpTo(ss, ts[i].key, |ss|) {
        assert !Gone(ts, ss, i) && !CameBackEver(ss, ts[i].key);
      }
    }
    if forall i :: 0 <= i < |ts| ==> PresentUpTo(ss, ts[i].key, |ss|) {
      assert PresentUpTo(ss, ts[0].key, |ss|);
    }
  }

  /** present*, absent+ */
  ghost predicate StayedAway(ss: seq<Sample>, key: string) {
    exists i :: 0 <= i < |ss| && PresentUpTo(ss, key, i) && AbsentFrom(ss, key, i)
  }

  ghost predicate Returned(ss: seq<Sample>, key: string) {
    exists i, j :: 0 <= i < j < |ss| && !Reads(ss[i], key) && Reads(ss[j], key)
  }

  lemma OneKey(ss: seq<Sample>, key: string)
    requires ss != []
    ensures CameBackEver(ss, key) <==> Returned(ss, key)
    ensures !CameBackEver(ss, key) ==>
              if ClearedSince(ss, key).Some? then StayedAway(ss, key) else PresentUpTo(ss, key, |ss|)
    ensures StayedAway(ss, key) ==> ClearedSince(ss, key).Some? && !CameBackEver(ss, key)
    ensures PresentUpTo(ss, key, |ss|) ==> ClearedSince(ss, key).None? && !CameBackEver(ss, key)
  {
    CameBackMeaning(ss, key);
    ClearedMeaning(ss, key);
    if !CameBackEver(ss, key) && ClearedSince(ss, key).Some? {
      var i :| LastSeenBefore(ss, key, i) && ClearedSince(ss, key) == Some(ss[i].now);
      forall j | 0 <= j < i ensures Reads(ss[j], key) {
        assert Reads(ss[i - 1], key);
      }
      assert PresentUpTo(ss, key, i);
    }
  }

  /** A pressure some watched finding is about fell by a fifth of what it was, or more. */
  ghost predicate FellAFifth(ts: seq<Target>, base: map<string, real>, latest: map<string, real>) {
    exists r, i ::
      && 0 <= i < |ts| && ts[i].resource == Some(r) && r in {"cpu", "memory", "disk", "gpu"}
      && r in base && r in latest && base[r] > 0.0 && latest[r] <= 0.8 * base[r]
  }

  lemma RelievedMeaning(ts: seq<Target>, base: map<string, real>, latest: map<string, real>)
    ensures Relieved(ts, base, latest) <==> FellAFifth(ts, base, latest)
  {
    if Relieved(ts, base, latest) {
      var r :| Watched(ts, r) && FellBy(base, latest, r, PARTLY);
      var i :| 0 <= i < |ts| && ts[i].resource == Some(r);
      assert latest[r] <= 0.8 * base[r];
    }
    if FellAFifth(ts, base, latest) {
      var r, i :| 0 <= i < |ts| && ts[i].resource == Some(r) && r in {"cpu", "memory", "disk", "gpu"} &&
                  r in base && r in latest && base[r] > 0.0 && latest[r] <= 0.8 * base[r];
      assert Watched(ts, r) && FellBy(base, latest, r, PARTLY);
    }
  }

  /** And for a process action: helped says that nothing watched is active any more,
      whatever the pressures did; no change that everything is and nothing eased. */
  lemma ProcessOutcomes(ts: seq<Target>, base: map<string, real>, ss: seq<Sample>)
    requires ts != [] && ss != []
    ensures var o, last := Judged(Process, ts, base, ss), ss[|ss| - 1];
            (o == Helped <==> forall i :: 0 <= i < |ts| ==> !Reads(last, ts[i].key)) &&
            (o == NoChange <==> (forall i :: 0 <= i < |ts| ==> Reads(last, ts[i].key)) &&
                                !FellAFifth(ts, base, last.pressures)) &&
            (o == Helped || o == Partial || o == NoChange)
  {
    RelievedMeaning(ts, base, ss[|ss| - 1].pressures);
    forall i | 0 <= i < |ts| ensures Gone(ts, ss, i) <==> !Reads(ss[|ss| - 1], ts[i].key) {
      ClearedMeaning(ss, ts[i].key);
    }
    if forall i :: 0 <= i < |ts| ==> Reads(ss[|ss| - 1], ts[i].key) {
      assert !Gone(ts, ss, 0);
    }
  }

  /** A pressure that fell by half does not make it "helped" while a finding is active. */
  lemma HalvedIsPartial(ts: seq<Target>, base: map<string, real>, ss: seq<Sample>, r: string)
    requires ts != [] && ss != [] && exists i :: 0 <= i < |ts| && Reads(ss[|ss| - 1], ts[i].key)
    requires Watched(ts, r) && FellBy(base, ss[|ss| - 1].pressures, r, 0.5)
    ensures Judged(Process, ts, base, ss) == Partial
  {
    assert FellBy(base, ss[|ss| - 1].pressures, r, PARTLY);
    RelievedMeaning(ts, base, ss[|ss| - 1].pressures);
    ProcessOutcomes(ts, base, ss);
  }

  lemma HalvedExample()
    ensures Judged(Process, [Target("cpu_hot", Some("cpu"))], map["cpu" := 0.8],
                   [Sample(40.0, {"cpu_hot"}, map["cpu" := 0.4])]) == Partial
  {
    var ts, last := [Target("cpu_hot", Some("cpu"))], Sample(40.0, {"cpu_hot"}, map["cpu" := 0.4]);
    assert Reads(last, ts[0].key) && ts[0].resource == Some("cpu") && Watched(ts, "cpu");
    HalvedIsPartial(ts, map["cpu" := 0.8], [last], "cpu");
  }

  /** Every verdict is exactly one of the words of its kind. */
  lemma WordsOfKind(kind: Kind, ts: seq<Target>, base: map<string, real>, ss: seq<Sample>)
    ensures Judged(kind, ts, base, ss) in
            {Moot, Unknown, Partial} +
            match kind
            case Process => {Helped, NoChange}
            case Outage => {Fixed, Recurred, NoChange}
            case Pulse => {CameBack, WentQuietAgain, StillQuiet}
    ensures Judged(kind, ts, base, ss) == Moot <==> ts == []
    ensures Judged(kind, ts, base, ss) == Unknown <==> ts != [] && ss == []
  {
  }

  // ------------------------------------------------------------- one watch

  ghost function RecurredNow(kind: Kind, ss: seq<Sample>, key: string): bool {
    kind != Process && CameBackEver(ss, key)
  }

  /** The books on one key agree with the trace. */
  ghost predicate Tracks(kind: Kind, cleared: map<string, real>, recurred: set<string>, ss: seq<Sample>, key: string) {
    (if key in cleared then ClearedSince(ss, key) == Some(cleared[key]) else ClearedSince(ss, key) == None) &&
    (key in recurred <==> RecurredNow(kind, ss, key))
  }

  lemma OneMoreSample(ss: seq<Sample>, s: Sample, key: string)
    ensures var before := ClearedSince(ss, key);
            ClearedSince(ss + [s], key) ==
              (if Reads(s, key) then None else if before.Some? then before else Some(s.now)) &&
            CameBackEver(ss + [s], key) == (CameBackEver(ss, key) || (Reads(s, key) && before.Some?))
  {
    assert (ss + [s])[..|ss|] == ss;
  }

  /** What one sample does to the books on one key. */
  method Mark(kind: Kind, cleared: map<string, real>, recurred: set<string>, key: string, s: Sample)
    returns (c: map<string, real>, r: set<string>)
    ensures c == (if Reads(s, key) then cleared - {key} else if key in cleared then cleared else cleared[key := s.now])
    ensures r == (if kind != Process && Reads(s, key) && key in cleared then recurred + {key} else recurred)
  {
    c, r := cleared, recurred;
    if key !in s.active {
      if key !in cleared {
        c := cleared[key := s.now];
      }
    } else if key in cleared {
      c := cleared - {key};
      if kind != Process {
        r := recurred + {key};
      }
    }
  }

  ghost predicate Earlier(ts: seq<Target>, i: nat, key: string) {
    exists j :: 0 <= j < i && j < |ts| && ts[j].key == key
  }

  /** In the loop over the targets: keys already passed know the new sample. */
  ghost predicate Halfway(kind: Kind, cleared: map<string, real>, recurred: set<string>, ts: seq<Target>,
                          ss: seq<Sample>, s: Sample, i: nat, key: string) {
    Earlier(ts, |ts|, key) ==>
      Tracks(kind, cleared, recurred, if Earlier(ts, i, key) then ss + [s] else ss, key)
  }

  lemma MarkStep(kind: Kind, cleared: map<string, real>, recurred: set<string>, ts: seq<Target>,
                 ss: seq<Sample>, s: Sample, i: nat, c: map<string, real>, r: set<string>, key: string)
    requires i < |ts| && Halfway(kind, cleared, recurred, ts, ss, s, i, key)
    requires Halfway(kind, cleared, recurred, ts, ss, s, i, ts[i].key)
    requires c == if Reads(s, ts[i].key) then cleared - {ts[i].key}
                  else if ts[i].key in cleared then cleared else cleared[ts[i].key := s.now]
    requires r == if kind != Process && Reads(s, ts[i].key) && ts[i].key in cleared
                  then recurred + {ts[i].key} else recurred
    ensures Halfway(kind, c, r, ts, ss, s, i + 1, key)
  {
    OneMoreSample(ss, s, key);
    assert Earlier(ts, i + 1, key) <==> Earlier(ts, i, key) || key == ts[i].key by {
      assert ts[i].key == key ==> Earlier(ts, i + 1, key);
    }
    assert key == ts[i].key ==> Earlier(ts, |ts|, key);
  }

  /** So many samples over so long a time are enough to judge by. */
  ghost predicate LongEnough(kind: Kind, n: nat, elapsed: real) {
    match kind
    case Process => n >= 20 && elapsed >= 30.0
    case Outage => n >= 3 && elapsed >= 60.0
    case Pulse => n >= 3 && elapsed >= 300.0
  }

  /** Longer than this nobody waits. */
  ghost predicate TooLong(kind: Kind, elapsed: real) {
    match kind
    case Process => elapsed > 120.0
    case Outage => elapsed > 240.0
    case Pulse => elapsed > 2700.0
  }

  class Watch {
    const id: int
    const node: string
    const kind: Kind
    const targets: seq<Target>
    const base: map<string, real>
    const started: real
    var samples: seq<Sample>
    var cleared: map<string, real>
    var recurred: set<string>
    var done: bool
    var verdict: Option<Outcome>
    var finishedAt: Option<real>

    ghost predicate Books()
      reads this
    {
      forall key :: Earlier(targets, |targets|, key) ==> Tracks(kind, cleared, recurred, samples, key)
    }

    /** Why a finished watch was allowed to finish. */
    ghost predicate MayClose()
      reads this
    {
      finishedAt.Some? &&
      (targets == [] ||
       LongEnough(kind, |samples|, finishedAt.value - started) || TooLong(kind, finishedAt.value - started))
    }

    ghost predicate Valid()
      reads this
    {
      && Books()
      && (done <==> verdict.Some?) && (done <==> finishedAt.Some?)
      && (done ==> verdict == Some(Judged(kind, targets, base, samples)) && MayClose())
    }

    constructor (id: int, node: string, kind: Kind, targets: seq<Target>, base: map<string, real>, started: real)
      ensures Valid() && !done && samples == []
      ensures this.id == id && this.node == node && this.kind == kind && this.targets == targets
      ensures this.base == base && this.started == started
    {
      this.id, this.node, this.kind, this.targets, this.base, this.started := id, node, kind, targets, base, started;
      samples, cleared, recurred, done, verdict, finishedAt := [], map[], {}, false, None, None;
    }

    /** `observe`. */
    method Observe(s: Sample)
      requires Valid() && !done
      modifies this
      ensures Valid() && samples == old(samples) + [s]
      ensures done <==> LongEnough(kind, |samples|, s.now - started)
      ensures done ==> finishedAt == Some(s.now)
    {
      ghost var before := samples;
      samples := samples + [s];
      MarkAll(s, before);
      if |samples| >= Window(kind) && s.now - started >= MinSeconds(kind) {
        Finish(s.now);
      }
    }

    method MarkAll(s: Sample, ghost before: seq<Sample>)
      requires samples == before + [s]
      requires forall key :: Earlier(targets, |targets|, key) ==> Tracks(kind, cleared, recurred, before, key)
      modifies this`cleared, this`recurred
      ensures Books()
    {
      for i := 0 to |targets|
        invariant forall key :: Halfway(kind, cleared, recurred, targets, before, s, i, key)
      {
        var c, r := Mark(kind, cleared, recurred, targets[i].key, s);
        var next := i + 1;
        forall key ensures Halfway(kind, c, r, targets, before, s, next, key) {
          assert Halfway(kind, cleared, recurred, targets, before, s, i, key);
          assert Halfway(kind, cleared, recurred, targets, before, s, i, targets[i].key);
          MarkStep(kind, cleared, recurred, targets, before, s, i, c, r, key);
        }
        cleared, recurred := c, r;
      }
      forall key | Earlier(targets, |targets|, key) ensures Tracks(kind, cleared, recurred, samples, key) {
        assert Halfway(kind, cleared, recurred, targets, before, s, |targets|, key);
      }
    }

    /** `finish`: the first call counts, later ones change nothing. */
    method Finish(now: real)
      requires Valid() || (!done && Books() && verdict == None && finishedAt == None)
      requires !done ==>
                 targets == [] || TooLong(kind, now - started) || LongEnough(kind, |samples|, now - started)
      modifies this`done, this`verdict, this`finishedAt
      ensures Valid() && done
      ensures old(done) ==> verdict == old(verdict) && finishedAt == old(finishedAt)
      ensures !old(done) ==> finishedAt == Some(now)
    {
      if done {
        return;
      }
      var o := Judge();
      done, finishedAt, verdict := true, Some(now), Some(o);
    }

    /** `_judge` of all three kinds, down to the word. */
    method Judge() returns (o: Outcome)
      requires Books()
      ensures o == Judged(kind, targets, base, samples)
    {
      if targets == [] {
        return Moot;
      }
      if samples == [] {
        return Unknown;
      }
      var gone, back := Tally();
      if kind != Process && back > 0 {
        return if kind.Outage? then Recurred else WentQuietAgain;
      }
      if gone == |targets| {
        return match kind case Process => Helped case Outage => Fixed case Pulse => CameBack;
      }
      var eased := false;
      if kind == Process {
        var drop := BiggestDrop(targets, base, samples[|samples| - 1].pressures);
        eased := drop >= PARTLY;
        if drop >= 0.5 && gone == |targets| {
          // A second way to "helped" that the first one has already taken.
          assert false;
        }
      }
      if gone > 0 || eased {
        return Partial;
      }
      return if kind.Pulse? then StillQuiet else NoChange;
    }

    /** How many targets are gone, and how many came back in between. */
    method Tally() returns (gone: nat, back: nat)
      requires Books()
      ensures gone <= |targets|
      ensures gone == |targets| <==> forall i :: 0 <= i < |targets| ==> Gone(targets, samples, i)
      ensures gone > 0 <==> exists i :: 0 <= i < |targets| && Gone(targets, samples, i)
      ensures kind != Process ==>
                (back > 0 <==> exists i :: 0 <= i < |targets| && CameBackEver(samples, targets[i].key))
    {
      gone, back := 0, 0;
      for i := 0 to |targets|
        invariant gone <= i
        invariant gone == i <==> forall j :: 0 <= j < i ==> Gone(targets, samples, j)
        invariant gone > 0 <==> exists j :: 0 <= j < i && Gone(targets, samples, j)
        invariant kind != Process ==>
                    (back > 0 <==> exists j :: 0 <= j < i && CameBackEver(samples, targets[j].key))
      {
        assert Earlier(targets, |targets|, targets[i].key);
        assert Tracks(kind, cleared, recurred, samples, targets[i].key);
        assert Gone(targets, samples, i) <==> targets[i].key in cleared;
        if targets[i].key in cleared {
          gone := gone + 1;
        }
        if targets[i].key in recurred {
          back := back + 1;
        }
      }
    }
  }

  function Drop(before: real, after: real): real {
    if before > 0.0 then (before - after) / before else 0.0
  }

  lemma DropMeaning(before: real, after: real)
    ensures Drop(before, after) >= PARTLY <==> before > 0.0 && after <= before - PARTLY * before
  {
    if before > 0.0 {
      var d := Drop(before, after);
      assert d * before == before - after;
      if d >= PARTLY {
        assert (d - PARTLY) * before >= 0.0;
      } else {
        assert (PARTLY - d) * before > 0.0;
      }
    }
  }

  /** The largest relative fall over the watched resources, never below zero. */
  method BiggestDrop(ts: seq<Target>, base: map<string, real>, latest: map<string, real>) returns (biggest: real)
    ensures biggest >= 0.0
    ensures biggest >= PARTLY <==> Relieved(ts, base, latest)
  {
    biggest := 0.0;
    var resources := set i | 0 <= i < |ts| && ts[i].resource.Some? && ts[i].resource.value in RESOURCES
                           :: ts[i].resource.value;
    assert forall r :: r in resources <==> Watched(ts, r);
    var todo := resources;
    while todo != {}
      invariant todo <= resources && biggest >= 0.0
      invariant biggest >= PARTLY <==> exists r :: r in resources - todo && FellBy(base, latest, r, PARTLY)
    {
      var r :| r in todo;
      ghost var was := biggest;
      if r in base && r in latest {
        DropMeaning(base[r], latest[r]);
        if Drop(base[r], latest[r]) > biggest {
          biggest := Drop(base[r], latest[r]);
        }
      }
      assert biggest >= PARTLY <==> was >= PARTLY || FellBy(base, latest, r, PARTLY);
      assert resources - (todo - {r}) == (resources - todo) + {r};
      todo := todo - {r};
    }
  }

  // ------------------------------------------------------- the watch table

  /** What can be said about a watch between calls. */
  datatype Progress = Progress(samples: seq<Sample>, done: bool, verdict: Option<Outcome>, finishedAt: Option<real>)

  type View = map<Watch, Progress>

  ghost function ProgressOf(w: Watch): Progress
    reads w
  {
    Progress(w.samples, w.done, w.verdict, w.finishedAt)
  }

  /** One frame reached exactly the watches in `open`; no other watch moved. */
  ghost predicate Fed(before: View, after: View, open: set<Watch>, s: Sample) {
    after.Keys == before.Keys && forall w :: w in before ==> FedOne(before[w], after[w], w in open, s)
  }

  ghost predicate FedOne(p: Progress, q: Progress, open: bool, s: Sample) {
    if open then q.samples == p.samples + [s] else q == p
  }

  lemma FedNext(before: View, middle: View, after: View, done: set<Watch>, w: Watch, s: Sample)
    requires Fed(before, middle, done, s) && Fed(middle, after, {w}, s) && w !in done
    ensures Fed(before, after, done + {w}, s)
  {
    forall x | x in before ensures FedOne(before[x], after[x], x in done + {w}, s) {
      assert FedOne(before[x], middle[x], x in done, s) && FedOne(middle[x], after[x], x in {w}, s);
    }
  }

  ghost predicate Overdue(w: Watch, now: real) {
    TooLong(w.kind, now - w.started)
  }

  ghost function OverdueIn(ws: set<Watch>, now: real): set<Watch> {
    set w | w in ws && Overdue(w, now)
  }

  lemma OverdueAppend(ws: set<Watch>, w: Watch, now: real)
    ensures OverdueIn(ws + {w}, now) == OverdueIn(ws, now) + OverdueIn({w}, now)
  {
  }

  /** Of the open watches exactly those in `due` were closed. */
  ghost predicate TimedOut(before: View, after: View, due: set<Watch>, now: real) {
    after.Keys == before.Keys && forall w :: w in before ==> Expired(before[w], after[w], w in due, now)
  }

  ghost predicate Expired(p: Progress, q: Progress, due: bool, now: real) {
    if due && !p.done then q.samples == p.samples && q.done && q.finishedAt == Some(now) else q == p
  }

  lemma TimedOutNext(before: View, middle: View, after: View, due: set<Watch>, more: set<Watch>, now: real)
    requires TimedOut(before, middle, due, now) && TimedOut(middle, after, more, now)
    ensures TimedOut(before, after, due + more, now)
  {
    forall x | x in before ensures Expired(before[x], after[x], x in due + more, now) {
      assert Expired(before[x], middle[x], x in due, now) && Expired(middle[x], after[x], x in more, now);
    }
  }

  /** The watches, the verdict writes made for each, the verdict column of the action rows,
      and whether the store is connected. */
  datatype Shelf = Shelf(view: View, stored: map<Watch, seq<Outcome>>, rows: map<int, Option<Outcome>>, open: bool)

  ghost predicate Closed(p: Progress) {
    p.done && p.verdict.Some?
  }

  /** The watch is given its verdict. */
  ghost predicate Closes(s: Shelf, t: Shelf, w: Watch) {
    w in t.view && Closed(t.view[w]) && !(w in s.view && s.view[w].done)
  }

  /** And the verdict is written: not without a connection, nor with no number. */
  ghost predicate Writes(s: Shelf, t: Shelf, w: Watch) {
    Closes(s, t, w) && w.id > 0 && s.open
  }

  ghost predicate Kept(s: Shelf, t: Shelf, w: Watch) {
    w in s.view && s.view[w].done ==> w in t.view && t.view[w] == s.view[w]
  }

  ghost function StoredFor(s: Shelf, w: Watch): seq<Outcome> {
    if w in s.stored then s.stored[w] else []
  }

  ghost predicate StoredOk(s: Shelf, t: Shelf, w: Watch) {
    StoredFor(t, w) == if Writes(s, t, w) then StoredFor(s, w) + [t.view[w].verdict.value] else StoredFor(s, w)
  }

  /** A row holds the verdict of a watch with its number that was written, or what it held. */
  ghost predicate RowOk(s: Shelf, t: Shelf, id: int) {
    id in s.rows ==>
      && id in t.rows
      && (t.rows[id] == s.rows[id] || exists w :: w in t.view && WritesTo(s, t, w, id))
      && ((exists w :: w in t.view && Writes(s, t, w) && w.id == id) ==>
            exists w :: w in t.view && WritesTo(s, t, w, id))
  }

  ghost predicate WritesTo(s: Shelf, t: Shelf, w: Watch, id: int) {
    Writes(s, t, w) && w.id == id && id in t.rows && t.rows[id] == t.view[w].verdict
  }

  /** What any call does to the whole: verdicts once given stay, and each is written when
      it is given, if the store is connected then. */
  ghost predicate Moves(s: Shelf, t: Shelf) {
    && t.open == s.open && s.view.Keys <= t.view.Keys && s.rows.Keys <= t.rows.Keys
    && s.stored.Keys == s.view.Keys && t.stored.Keys == t.view.Keys
    && AllKept(s, t) && AllStored(s, t) && AllRows(s, t)
  }

  ghost predicate AllKept(s: Shelf, t: Shelf) {
    forall w {:trigger Kept(s, t, w)} :: w in s.view ==> Kept(s, t, w)
  }

  ghost predicate AllStored(s: Shelf, t: Shelf) {
    forall w {:trigger StoredOk(s, t, w)} :: w in t.view ==> StoredOk(s, t, w)
  }

  ghost predicate AllRows(s: Shelf, t: Shelf) {
    forall id :: RowOk(s, t, id)
  }

  /** Nothing is written for a watch but its verdict, at most once. */
  ghost predicate Wrote(s: Shelf, w: Watch) {
    StoredFor(s, w) == [] ||
    (w in s.view && Closed(s.view[w]) && w.id > 0 && StoredFor(s, w) == [s.view[w].verdict.value])
  }

  /** Every watch has its record, nothing was written for it but its verdict, at most once,
      and row numbers are numbers. */
  ghost predicate InOrder(s: Shelf) {
    && s.stored.Keys == s.view.Keys
    && (forall w {:trigger Wrote(s, w)} :: w in s.view ==> Wrote(s, w))
    && (forall id :: id in s.rows ==> id > 0)
  }

  lemma MovesNot(s: Shelf)
    requires InOrder(s)
    ensures Moves(s, s)
  {
  }

  lemma WritesOn(s: Shelf, m: Shelf, t: Shelf, w: Watch)
    requires Moves(s, m) && Moves(m, t) && w in t.view
    ensures Writes(s, t, w) <==> Writes(s, m, w) || Writes(m, t, w)
    ensures !(Writes(s, m, w) && Writes(m, t, w))
    ensures Writes(s, m, w) ==> w in t.view && t.view[w] == m.view[w]
  {
    assert (w in s.view ==> Kept(s, m, w)) && (w in m.view ==> Kept(m, t, w));
  }

  lemma RowOn(s: Shelf, m: Shelf, t: Shelf, id: int)
    requires Moves(s, m) && Moves(m, t)
    ensures RowOk(s, t, id)
  {
    assert RowOk(s, m, id) && RowOk(m, t, id);
    if id in s.rows {
      if w :| w in t.view && WritesTo(m, t, w, id) {
        WritesOn(s, m, t, w);
        assert WritesTo(s, t, w, id);
      } else if w :| w in m.view && WritesTo(s, m, w, id) {
        WritesOn(s, m, t, w);
        assert WritesTo(s, t, w, id);
      }
      if w :| w in t.view && Writes(s, t, w) && w.id == id {
        WritesOn(s, m, t, w);
      }
    }
  }

  lemma MovesOn(s: Shelf, m: Shelf, t: Shelf)
    requires Moves(s, m) && Moves(m, t)
    ensures Moves(s, t)
  {
    forall w | w in s.view ensures Kept(s, t, w) {
      assert Kept(s, m, w) && Kept(m, t, w);
    }
    forall w | w in t.view ensures StoredOk(s, t, w) {
      assert StoredOk(m, t, w) && (w in m.view ==> StoredOk(s, m, w));
      WritesOn(s, m, t, w);
    }
    forall id ensures RowOk(s, t, id) {
      RowOn(s, m, t, id);
    }
  }

  /** One watch moves on, or enters. */
  ghost function Advanced(s: Shelf, w: Watch, q: Progress): Shelf {
    var writes := Closed(q) && w.id > 0 && s.open;
    Shelf(s.view[w := q],
          s.stored[w := if writes then StoredFor(s, w) + [q.verdict.value] else StoredFor(s, w)],
          if writes && w.id in s.rows then s.rows[w.id := q.verdict] else s.rows,
          s.open)
  }

  lemma AdvancedMoves(s: Shelf, w: Watch, q: Progress)
    requires InOrder(s) && !(w in s.view && s.view[w].done)
    ensures Moves(s, Advanced(s, w, q)) && InOrder(Advanced(s, w, q))
  {
    var t := Advanced(s, w, q);
    forall x | x in t.view ensures Writes(s, t, x) <==> x == w && Closed(q) && w.id > 0 && s.open {
    }
    forall x | x in t.view ensures Wrote(t, x) {
      assert x in s.view ==> Wrote(s, x);
    }
    forall id ensures RowOk(s, t, id) {
      if Writes(s, t, w) && id == w.id && id in s.rows {
        assert WritesTo(s, t, w, id);
      }
    }
    assert AllKept(s, t) && AllStored(s, t) && AllRows(s, t);
  }

  // -------------------------------------------------------- over every run

  /** Between two states of a run: a call, or the connection is lost or made. */
  ghost predicate Turn(s: Shelf, t: Shelf) {
    Moves(s, t) || t == s.(open := t.open)
  }

  ghost predicate Chain(states: seq<Shelf>) {
    forall k :: 0 < k < |states| ==> Turn(states[k - 1], states[k])
  }

  lemma TurnKeeps(s: Shelf, t: Shelf, w: Watch)
    requires Turn(s, t) && w in s.view && s.view[w].done
    ensures w in t.view && t.view[w] == s.view[w] && StoredFor(t, w) == StoredFor(s, w)
  {
    if Moves(s, t) {
      assert Kept(s, t, w) && StoredOk(s, t, w);
    }
  }

  /** Over every sequence of starts, frames, sweeps and losses of the store: a verdict
      once given, and the write of it, never change. */
  lemma {:induction false} VerdictsAreFinal(states: seq<Shelf>, i: nat, j: nat, w: Watch)
    requires Chain(states) && i <= j < |states| && w in states[i].view && states[i].view[w].done
    ensures w in states[j].view && states[j].view[w] == states[i].view[w]
    ensures StoredFor(states[j], w) == StoredFor(states[i], w)
  {
    if j == i {
    } else {
      VerdictsAreFinal(states, i, j - 1, w);
      assert Turn(states[j - 1], states[j]);
      TurnKeeps(states[j - 1], states[j], w);
    }
  }

  lemma TurnCloses(s: Shelf, t: Shelf, w: Watch)
    requires Turn(s, t) && w in s.view && !s.view[w].done
    ensures w in t.view
    ensures !t.view[w].done ==> StoredFor(t, w) == StoredFor(s, w)
    ensures Closed(t.view[w]) ==>
              StoredFor(t, w) == StoredFor(s, w) + if w.id > 0 && s.open then [t.view[w].verdict.value] else []
  {
    if Moves(s, t) {
      assert StoredOk(s, t, w);
    }
  }

  /** The turn in which the watch is given its verdict is the one that decides: it is
      written then, once, exactly when the store is connected and the number is one. */
  lemma {:induction false} WrittenWhenGiven(states: seq<Shelf>, i: nat, j: nat, w: Watch) returns (k: nat)
    requires Chain(states) && i <= j < |states| && w in states[i].view && !states[i].view[w].done
    requires w in states[j].view && Closed(states[j].view[w])
    requires forall n :: 0 <= n < |states| && w in states[n].view && states[n].view[w].done ==>
               Closed(states[n].view[w])
    ensures i < k <= j && w in states[k - 1].view && !states[k - 1].view[w].done
    ensures w in states[k].view && states[k].view[w] == states[j].view[w]
    ensures StoredFor(states[j], w) ==
            StoredFor(states[i], w) +
            if w.id > 0 && states[k - 1].open then [states[j].view[w].verdict.value] else []
    decreases j - i
  {
    assert Turn(states[i], states[i + 1]);
    TurnCloses(states[i], states[i + 1], w);
    if states[i + 1].view[w].done {
      k := i + 1;
      VerdictsAreFinal(states, i + 1, j, w);
    } else {
      k := WrittenWhenGiven(states, i + 1, j, w);
    }
  }

  // ------------------------------------------- actions the store did not take

  /** The number of an action the store did not take: Python's `-ms % 2000000000`,
      which is never negative. */
  function FallbackId(ms: int): int {
    (-ms) % 2_000_000_000
  }

  /** So the guard `id > 0` meant to spare the table almost never does. */
  lemma FallbackIdsAreWritten(ms: int)
    requires ms >= 0
    ensures 0 <= FallbackId(ms) < 2_000_000_000 && (FallbackId(ms) + ms) % 2_000_000_000 == 0
    ensures FallbackId(ms) > 0 <==> ms % 2_000_000_000 != 0
  {
    var m := 2_000_000_000;
    var q := ms / m;
    assert ms == q * m + ms % m;
    if ms % m != 0 {
      assert -ms == (-q - 1) * m + (m - ms % m);
      assert FallbackId(ms) + ms == (q + 1) * m;
    } else {
      assert -ms == (-q) * m;
    }
  }

  /** What the guard does not do the lost connection mostly does: the verdict of an action
      that was not recorded changes somebody's row exactly when the store has been
      connected again by then and holds a row of that number. */
  lemma StrayVerdict(s: Shelf, t: Shelf, w: Watch)
    requires InOrder(s) && Moves(s, t) && Closes(s, t, w)
    requires forall x :: x in t.view && Closes(s, t, x) ==> x == w
    ensures (exists id :: id in s.rows && t.rows[id] != s.rows[id]) <==>
            s.open && w.id in s.rows && s.rows[w.id] != t.view[w].verdict
  {
    forall id | id in s.rows ensures t.rows[id] == if s.open && id == w.id then t.view[w].verdict else s.rows[id] {
      assert RowOk(s, t, id);
      if s.open && id == w.id {
        assert Writes(s, t, w);
      }
    }
    if s.open && w.id in s.rows {
      assert RowOk(s, t, w.id);
    }
  }

  /** Not recorded at 2023-12-08 01:46:39.999 UTC, given its verdict after a reconnection:
      it replaces that of action 1. */
  lemma StrayExample(w: Watch)
    requires w.id == FallbackId(1_701_999_999_999)
    ensures exists s, t ::
              InOrder(s) && Moves(s, t) && Closes(s, t, w) &&
              1 in s.rows && s.rows[1] == Some(Helped) && t.rows[1] == Some(NoChange)
  {
    var open := Progress([], false, None, None);
    var s := Shelf(map[w := open], map[w := []], map[1 := Some(Helped)], true);
    var q := Progress([], true, Some(NoChange), Some(0.0));
    AdvancedMoves(s, w, q);
    assert 1_701_999_999_999 == 850 * 2_000_000_000 + 1_999_999_999;
    assert FallbackId(1_701_999_999_999) == 1;
  }

  lemma OneFewer(all: set<Watch>, todo: set<Watch>, w: Watch)
    requires todo <= all && w in todo
    ensures all - todo + {w} == all - (todo - {w})
  {
  }

  class ActionVerifier {
    var watches: map<int, Watch>
    /** The verdict column of the actions table, and whether the store is connected. */
    var rows: map<int, Option<Outcome>>
    var open: bool
    /** The same with every watch ever started and what was written for it. */
    ghost var shelf: Shelf
    /** Watches pushed out of the table by a later one with the same id. */
    ghost var displaced: set<Watch>

    /** The record of a watch is what it is, and an open watch is in the table, unless
        pushed out. */
    ghost predicate WatchOk(w: Watch)
      requires w in shelf.view
      reads this, w
    {
      && w.Valid() && shelf.view[w] == ProgressOf(w)
      && (!w.done ==> w in displaced || (w.id in watches && watches[w.id] == w))
    }

    ghost predicate AllOk(except: set<Watch>)
      reads this, shelf.view.Keys
    {
      forall w {:trigger WatchOk(w)} :: w in shelf.view && w !in except ==> WatchOk(w)
    }

    ghost predicate Tied()
      reads this
    {
      && shelf.rows == rows && shelf.open == open && InOrder(shelf)
      && (forall id :: id in watches ==> watches[id] in shelf.view && watches[id].id == id)
    }

    ghost predicate Valid()
      reads this, shelf.view.Keys
    {
      Tied() && AllOk({})
    }

    constructor (rows: map<int, Option<Outcome>>, open: bool)
      requires forall id :: id in rows ==> id > 0
      ensures Valid() && watches == map[] && displaced == {} && shelf == Shelf(map[], map[], rows, open)
    {
      watches, this.rows, this.open := map[], rows, open;
      shelf, displaced := Shelf(map[], map[], rows, open), {};
    }

    /** The connection is closed, or opened again (`set_enabled`). */
    method Connect(open: bool)
      requires Valid()
      modifies this`open, this`shelf
      ensures Valid() && this.open == open && shelf == old(shelf).(open := open)
    {
      StillInOrder(shelf, open);
      this.open := open;
      shelf := shelf.(open := open);
      forall x | x in shelf.view ensures WatchOk(x) {
        assert old(WatchOk(x));
      }
    }

    /** `record_action`: a new row, or 0 without a connection.  The database picks the
        number of the row. */
    method RecordAction(next: int) returns (id: int)
      requires Valid() && next > 0 && next !in rows
      modifies this`rows, this`shelf
      ensures Valid() && id == if open then next else 0
      ensures rows == (if open then old(rows)[next := None] else old(rows)) && shelf == old(shelf).(rows := rows)
      ensures Moves(old(shelf), shelf)
    {
      MovesNot(shelf);
      if !open {
        return 0;
      }
      RecordedMoves(shelf, next);
      rows := rows[next := None];
      shelf := shelf.(rows := rows);
      forall x | x in shelf.view ensures WatchOk(x) {
        assert old(WatchOk(x));
      }
      return next;
    }

    /** `start`, `start_outage`, `start_pulse`: the clock is read again to finish a
        watch with nothing to watch. */
    method Start(next: int, ms: int, node: string, kind: Kind, targets: seq<Target>, base: map<string, real>,
                 started: real, now: real)
      returns (w: Watch)
      requires Valid() && next > 0 && next !in rows
      modifies this
      ensures Valid() && fresh(w) && w.done == (targets == [])
      ensures w.id == (if old(open) then next else FallbackId(ms))
      ensures w.kind == kind && w.targets == targets && w.node == node && w.started == started
      ensures Moves(old(shelf), shelf) && shelf.view == old(shelf).view[w := ProgressOf(w)]
      ensures rows.Keys == old(rows.Keys) + if old(open) then {next} else {}
      ensures watches == old(watches)[w.id := w]
      ensures displaced == old(displaced) + if w.id in old(watches) then {old(watches)[w.id]} else {}
    {
      ghost var before := shelf;
      var id := RecordAction(next);
      ghost var middle := shelf;
      if id == 0 {
        id := FallbackId(ms);
      }
      w := new Watch(id, node, kind, targets, base, started);
      if targets == [] {
        w.Finish(now);
      }
      Enter(w);
      MovesOn(before, middle, shelf);
    }

    /** Put a new watch into the table, its verdict already stored if it has one. */
    method Enter(w: Watch)
      requires Valid() && w !in shelf.view && w.Valid()
      modifies this
      ensures Valid() && watches == old(watches)[w.id := w] && open == old(open) && rows.Keys == old(rows.Keys)
      ensures shelf.view == old(shelf).view[w := ProgressOf(w)] && Moves(old(shelf), shelf)
      ensures displaced == old(displaced) + if w.id in old(watches) then {old(watches)[w.id]} else {}
    {
      Record(w);
      Place(w);
    }

    method Place(w: Watch)
      requires Tied() && AllOk({w}) && w in shelf.view && w.Valid() && shelf.view[w] == ProgressOf(w)
      modifies this`watches, this`displaced
      ensures Valid() && watches == old(watches)[w.id := w]
      ensures displaced == old(displaced) + if w.id in old(watches) then {old(watches)[w.id]} else {}
    {
      displaced := displaced + if w.id in watches then {watches[w.id]} else {};
      watches := watches[w.id := w];
      forall x | x in shelf.view ensures WatchOk(x) {
        assert x != w ==> old(WatchOk(x));
      }
    }

    /** A watch has moved on, or is new: what it was given is written, and noted. */
    method Record(w: Watch)
      requires Tied() && AllOk({w}) && w.Valid() && !(w in shelf.view && shelf.view[w].done)
      modifies this`rows, this`shelf
      ensures Tied() && AllOk({w}) && rows.Keys == old(rows.Keys)
      ensures shelf == Advanced(old(shelf), w, ProgressOf(w)) && Moves(old(shelf), shelf)
    {
      AdvancedMoves(shelf, w, ProgressOf(w));
      Persist(w);
      shelf := Advanced(shelf, w, ProgressOf(w));
      forall x | x in shelf.view && x != w ensures WatchOk(x) {
        assert old(WatchOk(x));
      }
    }

    /** The watches in the table. */
    function Held(): set<Watch>
      reads this
    {
      set id | id in watches :: watches[id]
    }

    /** `_persist` and `set_verdict`. */
    method Persist(w: Watch)
      requires w.Valid() && shelf.rows == rows && shelf.open == open
      modifies this`rows
      ensures rows == Advanced(shelf, w, ProgressOf(w)).rows
    {
      if w.verdict.Some? && w.id > 0 {
        if open && w.id in rows {
          rows := rows[w.id := w.verdict];
        }
      }
    }

    /** What happens to one watch does not touch the others. */
    twostate lemma OthersOk(w: Watch)
      requires old(Valid()) && unchanged(this) && forall x :: x in shelf.view && x != w ==> unchanged(x)
      ensures AllOk({w})
    {
      forall x | x in shelf.view && x != w ensures WatchOk(x) {
        assert old(WatchOk(x));
      }
    }

    /** One sample for one watch, and its verdict if that closes it. */
    method Feed(w: Watch, s: Sample)
      requires Valid() && w in shelf.view && !w.done
      modifies w, this`rows, this`shelf
      ensures Valid() && Fed(old(shelf).view, shelf.view, {w}, s) && Moves(old(shelf), shelf)
    {
      assert WatchOk(w);
      w.Observe(s);
      OthersOk(w);
      Record(w);
      assert WatchOk(w);
    }

    method FeedNext(w: Watch, s: Sample, ghost before: Shelf, ghost fed: set<Watch>)
      requires Valid() && Fed(before.view, shelf.view, fed, s) && Moves(before, shelf)
      requires w in before.view && w !in fed && !before.view[w].done
      modifies w, this`rows, this`shelf
      ensures Valid() && Fed(before.view, shelf.view, fed + {w}, s) && Moves(before, shelf)
    {
      ghost var middle := shelf;
      assert FedOne(before.view[w], middle.view[w], w in fed, s) && WatchOk(w);
      Feed(w, s);
      FedNext(before.view, middle.view, shelf.view, fed, w, s);
      MovesOn(before, middle, shelf);
    }

    /** `observe`, `observe_outage`, `observe_pulse`: one frame for the open watches of
        one node and kind, in any order; nothing else moves. */
    method Observe(node: string, kind: Kind, s: Sample)
      requires Valid()
      modifies Held(), this`rows, this`shelf
      ensures Valid() && Moves(old(shelf), shelf)
      ensures Fed(old(shelf).view, shelf.view,
                  old(set w | w in Held() && w.node == node && w.kind == kind && !w.done), s)
    {
      var open := set w | w in Held() && w.node == node && w.kind == kind && !w.done;
      forall w | w in open ensures !shelf.view[w].done {
        assert WatchOk(w);
      }
      FeedAll(open, s);
    }

    method FeedAll(open: set<Watch>, s: Sample)
      requires Valid() && open <= shelf.view.Keys && forall w :: w in open ==> !shelf.view[w].done
      modifies open, this`rows, this`shelf
      ensures Valid() && Fed(old(shelf).view, shelf.view, open, s) && Moves(old(shelf), shelf)
    {
      ghost var before := shelf;
      var todo := open;
      MovesNot(before);
      while todo != {}
        invariant todo <= open && Valid() && Fed(before.view, shelf.view, open - todo, s) && Moves(before, shelf)
      {
        var w :| w in todo;
        FeedNext(w, s, before, open - todo);
        OneFewer(open, todo, w);
        todo := todo - {w};
      }
      assert open - todo == open;
    }

    /** Time one watch out, if it is overdue. */
    method Expire(w: Watch, now: real)
      requires Valid() && w in shelf.view
      modifies w, this`rows, this`shelf
      ensures Valid() && TimedOut(old(shelf).view, shelf.view, OverdueIn({w}, now), now) && Moves(old(shelf), shelf)
    {
      assert WatchOk(w);
      MovesNot(shelf);
      if w.done || now - w.started <= MaxSeconds(w.kind) {
        return;
      }
      w.Finish(now);
      OthersOk(w);
      Record(w);
      assert WatchOk(w);
    }

    method ExpireNext(w: Watch, now: real, ghost before: Shelf, ghost due: set<Watch>)
      requires Valid() && TimedOut(before.view, shelf.view, due, now) && Moves(before, shelf) && w in before.view
      modifies w, this`rows, this`shelf
      ensures Valid() && TimedOut(before.view, shelf.view, due + OverdueIn({w}, now), now) && Moves(before, shelf)
    {
      ghost var middle := shelf;
      Expire(w, now);
      TimedOutNext(before.view, middle.view, shelf.view, due, OverdueIn({w}, now), now);
      MovesOn(before, middle, shelf);
    }

    /** In mid-sweep: `seen` have been looked at, `todo` have not. */
    ghost predicate Sweeping(before: Shelf, todo: set<Watch>, seen: set<Watch>, now: real)
      reads this, shelf.view.Keys
    {
      todo !! seen && todo + seen <= before.view.Keys && Valid() && Moves(before, shelf) &&
      TimedOut(before.view, shelf.view, OverdueIn(seen, now), now)
    }

    method ExpireOneOf(todo: set<Watch>, ghost before: Shelf, ghost seen: set<Watch>, now: real) returns (w: Watch)
      requires todo != {} && Sweeping(before, todo, seen, now)
      modifies todo, this`rows, this`shelf
      ensures w in todo && Sweeping(before, todo - {w}, seen + {w}, now)
    {
      w :| w in todo;
      ExpireNext(w, now, before, OverdueIn(seen, now));
      OverdueAppend(seen, w, now);
    }

    method ExpireAll(all: set<Watch>, now: real)
      requires Valid() && all <= shelf.view.Keys
      modifies all, this`rows, this`shelf
      ensures Valid() && TimedOut(old(shelf).view, shelf.view, OverdueIn(all, now), now) && Moves(old(shelf), shelf)
    {
      ghost var before := shelf;
      var todo := all;
      ghost var seen := {};
      MovesNot(before);
      while todo != {}
        invariant todo + seen == all && Sweeping(before, todo, seen, now)
      {
        var w := ExpireOneOf(todo, before, seen, now);
        todo, seen := todo - {w}, seen + {w};
      }
      assert seen == all;
    }

    /** `watch.finished_at and now - watch.finished_at > KEEP_SECONDS`. */
    predicate Stale(w: Watch, now: real)
      reads w
    {
      w.done && w.finishedAt.Some? && w.finishedAt.value != 0.0 && now - w.finishedAt.value > KEEP_SECONDS
    }

    /** The verdict was given more than a quarter of an hour ago (at a time other than 0). */
    ghost predicate KeptLong(w: Watch, now: real)
      reads w
    {
      w.finishedAt.Some? && w.finishedAt.value != 0.0 && now - w.finishedAt.value > 900.0 && w.done
    }

    /** `sweep`: afterwards no overdue watch is unfinished, and exactly the verdicts kept
        long enough are forgotten. */
    method Sweep(now: real)
      requires Valid()
      modifies Held(), this
      ensures Valid() && displaced == old(displaced) && Moves(old(shelf), shelf)
      ensures TimedOut(old(shelf).view, shelf.view, OverdueIn(old(Held()), now), now)
      ensures forall id :: id in watches ==> watches[id].done || !Overdue(watches[id], now)
      ensures forall id :: id in watches <==> id in old(watches) && !old(KeptLong(watches[id], now))
      ensures forall id :: id in watches ==> watches[id] == old(watches)[id]
    {
      ghost var before := shelf;
      ExpireAll(Held(), now);
      forall id | id in watches
        ensures Stale(watches[id], now) == old(Stale(watches[id], now))
        ensures watches[id].done || !Overdue(watches[id], now)
      {
        ghost var w := watches[id];
        assert w in Held() && WatchOk(w) && old(WatchOk(w));
        assert Expired(before.view[w], shelf.view[w], w in OverdueIn(Held(), now), now);
      }
      Forget(now);
    }

    /** The second half of a sweep's loop. */
    method Forget(now: real)
      requires Valid()
      modifies this`watches
      ensures Valid() && watches == map id | id in old(watches) && !Stale(old(watches)[id], now) :: old(watches)[id]
    {
      watches := map id | id in watches && !Stale(watches[id], now) :: watches[id];
      forall x | x in shelf.view ensures WatchOk(x) {
        assert old(WatchOk(x));
      }
    }
  }

  lemma StillInOrder(s: Shelf, open: bool)
    requires InOrder(s)
    ensures InOrder(s.(open := open))
  {
    forall w | w in s.view ensures Wrote(s.(open := open), w) {
      assert Wrote(s, w);
    }
  }

  /** A row more, and nobody's verdict. */
  lemma RecordedMoves(s: Shelf, next: int)
    requires next > 0 && next !in s.rows && InOrder(s)
    ensures var t := s.(rows := s.rows[next := None]); Moves(s, t) && InOrder(t)
  {
    var t := s.(rows := s.rows[next := None]);
    assert forall w :: w in t.view ==> !Writes(s, t, w);
    forall x | x in t.view ensures Wrote(t, x) {
      assert Wrote(s, x);
    }
    assert AllKept(s, t) && AllStored(s, t) && AllRows(s, t);
  }
}
