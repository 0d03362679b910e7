/** Has a subject gone quiet, and since when (`judge_subject`), and what a node
    remembers from one judgement to the next (the held/since part of `Pulse._judge`,
    with `fold_machine_quiet`). */
module PulseJudge {
  import opened Prelude
  import opened PulseBaseline

  const WINDOW_S: real := 1800.0
  const RECENT_S: real := 600.0
  const MIN_SAMPLES: nat := 20
  const MIN_RECENT_SAMPLES: nat := 5
  const HOLD_CRIT_S: real := 10_800.0
  const BUSY_PUBLIC: real := 50.0
  const NOW_ACTIVE_SHARE: real := 0.2
  const MACHINE_FOLD: nat := 3

  datatype Sample = Sample(stamp: real, a: real, b: real, active: bool)

  datatype Severity = Warn | Critical

  datatype ItemKind = Quiet(kind: Kind) | Timer

  datatype Item = Item(key: string, kind: ItemKind, since: real, capped: bool, severity: Severity)

  /** A subject with what one judgement knows of it. */
  datatype Subject = Subject(key: string, kind: Kind, isPublic: bool, suppressed: bool,
                             ring: seq<Sample>, baseline: Baseline)

  function Window(ring: seq<Sample>, now: real, span: real): seq<Sample> {
    if ring == [] then [] else
    Window(ring[..|ring| - 1], now, span)
    + if ring[|ring| - 1].stamp >= now - span then [ring[|ring| - 1]] else []
  }

  function Total(ss: seq<Sample>): real {
    if ss == [] then 0.0 else Total(ss[..|ss| - 1]) + ss[|ss| - 1].a
  }

  function ActiveCount(ss: seq<Sample>): nat {
    if ss == [] then 0 else ActiveCount(ss[..|ss| - 1]) + if ss[|ss| - 1].active then 1 else 0
  }

  function MeanOf(ss: seq<Sample>): real
    requires ss != []
  {
    Total(ss) / |ss| as real
  }

  /** Is there anything to say: the firing test, or the clearing test while held. */
  predicate Speaks(s: Subject, held: bool, now: real, ratio: real) {
    s.baseline.usable &&
    var window := Window(s.ring, now, WINDOW_S);
    |window| >= MIN_SAMPLES &&
    var mean := MeanOf(window);
    var recent := Window(s.ring, now, RECENT_S);
    var recentMean := if |recent| >= MIN_RECENT_SAMPLES then MeanOf(recent) else mean;
    if held then recentMean < RecoveryLine(s.baseline)
    else mean < FiringLine(MetricOf(s.kind), ratio, s.baseline) &&
         ActiveCount(window) as real / |window| as real < NOW_ACTIVE_SHARE
  }

  /** The first index of the maximal suffix of samples under the line. */
  function QuietFrom(ring: seq<Sample>, line: real): (k: nat)
    ensures k <= |ring|
    ensures forall i :: k <= i < |ring| ==> ring[i].a < line
    ensures k > 0 ==> ring[k - 1].a >= line
  {
    if ring == [] || ring[|ring| - 1].a >= line then |ring| else QuietFrom(ring[..|ring| - 1], line)
  }

  /** When the run began as far as the ring shows, moved back by what is remembered. */
  function Began(s: Subject, hint: Option<real>, now: real, ratio: real): (real, bool) {
    var k := QuietFrom(s.ring, FiringLine(MetricOf(s.kind), ratio, s.baseline));
    var since := if k == |s.ring| then now else s.ring[k].stamp;
    if hint.Some? && hint.value < since then (hint.value, false) else (since, k == 0)
  }

  function SeverityOf(s: Subject, heldFor: real): Severity {
    if heldFor >= HOLD_CRIT_S || (s.kind == Listener && s.isPublic && s.baseline.median >= BUSY_PUBLIC)
    then Critical else Warn
  }

  /** The specification of one judgement. */
  function Judged(s: Subject, held: bool, hint: Option<real>, now: real, ratio: real, hold: real): Option<Item> {
    if !Speaks(s, held, now, ratio) then None else
    var (since, capped) := Began(s, hint, now, ratio);
    if !held && now - since < hold then None
    else Some(Item(s.key, Quiet(s.kind), since, capped, SeverityOf(s, now - since)))
  }

  // ------------------------------------------- what one judgement must say

  ghost function CountSince(ring: seq<Sample>, from: real): nat {
    if ring == [] then 0 else
    CountSince(ring[..|ring| - 1], from) + if ring[|ring| - 1].stamp >= from then 1 else 0
  }

  ghost function ActiveSince(ring: seq<Sample>, from: real): nat {
    if ring == [] then 0 else
    ActiveSince(ring[..|ring| - 1], from)
    + if ring[|ring| - 1].stamp >= from && ring[|ring| - 1].active then 1 else 0
  }

  ghost function TotalSince(ring: seq<Sample>, from: real): real {
    if ring == [] then 0.0 else
    TotalSince(ring[..|ring| - 1], from) + if ring[|ring| - 1].stamp >= from then ring[|ring| - 1].a else 0.0
  }

  lemma {:induction false} WindowCounts(ring: seq<Sample>, now: real, span: real)
    ensures var w := Window(ring, now, span);
            |w| == CountSince(ring, now - span) && Total(w) == TotalSince(ring, now - span) &&
            ActiveCount(w) == ActiveSince(ring, now - span)
  {
    if ring == [] {
    } else {
      var init := ring[..|ring| - 1];
      WindowCounts(init, now, span);
      var w := Window(init, now, span);
      assert (w + [ring[|ring| - 1]])[..|w|] == w && w + [] == w;
    }
  }

  /** The mean of n numbers is under the line. */
  ghost predicate Under(total: real, n: nat, line: real) {
    total < n as real * line
  }

  lemma MeanUnder(ss: seq<Sample>, line: real)
    requires ss != []
    ensures MeanOf(ss) < line <==> Under(Total(ss), |ss|, line)
  {
    QuotientUnder(Total(ss), |ss| as real, line, MeanOf(ss));
  }

  lemma QuotientUnder(total: real, n: real, line: real, q: real)
    requires n > 0.0 && q == total / n
    ensures q < line <==> total < n * line
  {
    assert q * n == total;
    if q < line {
      Scaled(line - q, n);
      assert (line - q) * n == line * n - q * n;
      assert (line - q) * n > 0.0;
    } else {
      Scaled(q - line, n);
      assert (q - line) * n == q * n - line * n;
    }
  }

  /** The larger of the noise floor and the ratio of the quietest normal. */
  ghost predicate IsLine(line: real, kind: Kind, ratio: real, b: Baseline) {
    && line >= MetricOf(kind).floorA && line >= ratio * b.p10
    && (line == MetricOf(kind).floorA || line == ratio * b.p10)
  }

  /** Quiet enough to fire: at least 20 samples in half an hour, their mean under the
      line, and fewer than a fifth of them active. */
  ghost predicate Fires(s: Subject, now: real, line: real) {
    var n, from := CountSince(s.ring, now - 1800.0), now - 1800.0;
    s.baseline.usable && n >= 20 && Under(TotalSince(s.ring, from), n, line) &&
    Under(ActiveSince(s.ring, from) as real, n, 0.2)
  }

  /** Not back yet: the mean of the last ten minutes, or of the half hour when those have
      fewer than five samples, is under half the normal median. */
  ghost predicate NotBack(s: Subject, now: real) {
    var n, r := CountSince(s.ring, now - 1800.0), CountSince(s.ring, now - 600.0);
    s.baseline.usable && n >= 20 &&
    if r >= 5 then Under(TotalSince(s.ring, now - 600.0), r, 0.5 * s.baseline.median)
    else Under(TotalSince(s.ring, now - 1800.0), n, 0.5 * s.baseline.median)
  }

  /** Since when: the start of the silence that ends the ring, unless remembered earlier. */
  ghost predicate BeganAt(s: Subject, hint: Option<real>, now: real, line: real, since: real, capped: bool) {
    exists k :: QuietSuffix(s.ring, line, k) &&
                var own := StampAt(s.ring, k, now);
                if hint.Some? && hint.value < own then since == hint.value && !capped
                else since == own && (capped <==> k == 0)
  }

  ghost predicate Grave(s: Subject, heldFor: real) {
    heldFor >= 10_800.0 || (s.kind == Listener && s.isPublic && s.baseline.median >= 50.0)
  }

  /** What one judgement must say of a subject. */
  ghost predicate RightJudgement(item: Option<Item>, s: Subject, held: bool, hint: Option<real>, now: real,
                                 ratio: real, hold: real) {
    exists line, since, capped ::
      && IsLine(line, s.kind, ratio, s.baseline) && BeganAt(s, hint, now, line, since, capped)
      && Judges(item, s, held, now, hold, line, since, capped)
  }

  ghost predicate Judges(item: Option<Item>, s: Subject, held: bool, now: real, hold: real, line: real, since: real,
                         capped: bool) {
    && (item.Some? <==> if held then NotBack(s, now) else Fires(s, now, line) && now - since >= hold)
    && (item.Some? ==> item.value.key == s.key && item.value.kind == Quiet(s.kind) && item.value.since == since &&
                       item.value.capped == capped && (item.value.severity == Critical <==> Grave(s, now - since)))
  }

  lemma HeldSpeaks(s: Subject, now: real, ratio: real)
    ensures Speaks(s, true, now, ratio) <==> NotBack(s, now)
  {
    var window, recent := Window(s.ring, now, WINDOW_S), Window(s.ring, now, RECENT_S);
    WindowCounts(s.ring, now, WINDOW_S);
    WindowCounts(s.ring, now, RECENT_S);
    if |window| >= MIN_SAMPLES {
      MeanUnder(if |recent| >= MIN_RECENT_SAMPLES then recent else window, RecoveryLine(s.baseline));
    }
  }

  lemma FreshSpeaks(s: Subject, now: real, ratio: real)
    ensures Speaks(s, false, now, ratio) <==> Fires(s, now, FiringLine(MetricOf(s.kind), ratio, s.baseline))
  {
    var window := Window(s.ring, now, WINDOW_S);
    WindowCounts(s.ring, now, WINDOW_S);
    if |window| >= MIN_SAMPLES {
      MeanUnder(window, FiringLine(MetricOf(s.kind), ratio, s.baseline));
      var share := ActiveCount(window) as real / |window| as real;
      QuotientUnder(ActiveCount(window) as real, |window| as real, NOW_ACTIVE_SHARE, share);
    }
  }

  lemma SpeaksMeaning(s: Subject, held: bool, now: real, ratio: real)
    ensures Speaks(s, held, now, ratio) <==>
            if held then NotBack(s, now) else Fires(s, now, FiringLine(MetricOf(s.kind), ratio, s.baseline))
  {
    if held {
      HeldSpeaks(s, now, ratio);
    } else {
      FreshSpeaks(s, now, ratio);
    }
  }

  lemma JudgedMeaning(s: Subject, held: bool, hint: Option<real>, now: real, ratio: real, hold: real)
    ensures RightJudgement(Judged(s, held, hint, now, ratio, hold), s, held, hint, now, ratio, hold)
  {
    var line := FiringLine(MetricOf(s.kind), ratio, s.baseline);
    var (since, capped) := Began(s, hint, now, ratio);
    var k := QuietFrom(s.ring, line);
    assert QuietSuffix(s.ring, line, k);
    SpeaksMeaning(s, held, now, ratio);
    assert IsLine(line, s.kind, ratio, s.baseline);
    assert BeganAt(s, hint, now, line, since, capped);
    assert Judges(Judged(s, held, hint, now, ratio, hold), s, held, now, hold, line, since, capped);
  }

  /** The walk back over the ring, from its newest sample. */
  method WalkBack(ring: seq<Sample>, line: real, now: real) returns (since: real, capped: bool)
    ensures var k := QuietFrom(ring, line);
            since == (if k == |ring| then now else ring[k].stamp) && (capped <==> k == 0)
  {
    since, capped := now, true;
    var k := |ring|;
    assert ring[..k] == ring;
    while k > 0
      invariant 0 <= k <= |ring|
      invariant since == if k == |ring| then now else ring[k].stamp
      invariant QuietFrom(ring[..k], line) == QuietFrom(ring, line)
    {
      if ring[k - 1].a >= line {
        return since, false;
      }
      assert ring[..k][..k - 1] == ring[..k - 1];
      since := ring[k - 1].stamp;
      k := k - 1;
    }
  }

  /** `judge_subject`. */
  method JudgeSubject(s: Subject, held: bool, hint: Option<real>, now: real, ratio: real, hold: real)
    returns (item: Option<Item>)
    ensures item == Judged(s, held, hint, now, ratio, hold)
    ensures RightJudgement(item, s, held, hint, now, ratio, hold)
  {
    JudgedMeaning(s, held, hint, now, ratio, hold);
    if !Speaks(s, held, now, ratio) {
      return None;
    }
    var since, capped := WalkBack(s.ring, FiringLine(MetricOf(s.kind), ratio, s.baseline), now);
    if hint.Some? && hint.value < since {
      since, capped := hint.value, false;
    }
    assert (since, capped) == Began(s, hint, now, ratio);
    if !held && now - since < hold {
      return None;
    }
    return Some(Item(s.key, Quiet(s.kind), since, capped, SeverityOf(s, now - since)));
  }

  ghost predicate Chronological(ring: seq<Sample>, now: real) {
    (forall i, j :: 0 <= i < j < |ring| ==> ring[i].stamp <= ring[j].stamp) &&
    forall i :: 0 <= i < |ring| ==> ring[i].stamp <= now
  }

  /** The silence that ends the ring begins at sample `k`, or now when there is none. */
  ghost predicate QuietSuffix(ring: seq<Sample>, line: real, k: nat) {
    && k <= |ring|
    && (forall i :: k <= i < |ring| ==> ring[i].a < line)
    && (k > 0 ==> ring[k - 1].a >= line)
  }

  function StampAt(ring: seq<Sample>, k: nat, now: real): real {
    if k < |ring| then ring[k].stamp else now
  }

  /** Without a memory of it, a silence starts at the first stamp of the maximal
      below-the-line suffix, is capped exactly when that is the whole ring, and never
      starts before anything the ring still holds. */
  lemma SinceFromRing(s: Subject, held: bool, now: real, ratio: real, hold: real)
    requires Chronological(s.ring, now) && Judged(s, held, None, now, ratio, hold).Some?
    ensures var item := Judged(s, held, None, now, ratio, hold).value;
            var line := FiringLine(MetricOf(s.kind), ratio, s.baseline);
            (exists k :: QuietSuffix(s.ring, line, k) && item.since == StampAt(s.ring, k, now)) &&
            (item.capped <==> QuietSuffix(s.ring, line, 0)) &&
            item.since <= now && (s.ring != [] ==> s.ring[0].stamp <= item.since)
  {
    var k := QuietFrom(s.ring, FiringLine(MetricOf(s.kind), ratio, s.baseline));
    assert QuietSuffix(s.ring, FiringLine(MetricOf(s.kind), ratio, s.baseline), k);
  }

  /** While an item stays held its start never moves later, its held time never
      shrinks, and once it is critical for its duration it stays so until it clears. */
  lemma HeldNeverShrinks(s: Subject, was: real, wasNow: real, now: real, ratio: real, hold: real)
    requires wasNow <= now && Judged(s, true, Some(was), now, ratio, hold).Some?
    ensures var item := Judged(s, true, Some(was), now, ratio, hold).value;
            item.since <= was && now - item.since >= wasNow - was &&
            (wasNow - was >= HOLD_CRIT_S ==> item.severity == Critical)
  {
  }

  /** A held item clears only by recovering, or when there is too little to judge. */
  lemma ClearsOnlyOnRecovery(s: Subject, hint: Option<real>, now: real, ratio: real, hold: real)
    requires s.baseline.usable && |Window(s.ring, now, RECENT_S)| >= MIN_RECENT_SAMPLES
    requires |Window(s.ring, now, WINDOW_S)| >= MIN_SAMPLES
    ensures Judged(s, true, hint, now, ratio, hold).None? <==>
              MeanOf(Window(s.ring, now, RECENT_S)) >= RecoveryLine(s.baseline)
  {
  }

  lemma {:induction false} TotalBelow(ss: seq<Sample>, line: real)
    requires forall i :: 0 <= i < |ss| ==> ss[i].a < line
    ensures Total(ss) <= |ss| as real * line
    ensures ss != [] ==> Total(ss) < |ss| as real * line
  {
    if ss == [] {
    } else {
      var k := |ss| - 1;
      TotalBelow(ss[..k], line);
      assert |ss| as real * line == k as real * line + line;
    }
  }

  lemma QuotientBelow(total: real, n: real, line: real)
    requires n > 0.0 && total < n * line
    ensures total / n < line
  {
    var q := total / n;
    assert q * n == total;
    if q >= line {
      Scaled(q - line, n);
      assert (q - line) * n == q * n - line * n;
    }
  }

  lemma Scaled(d: real, n: real)
    requires d >= 0.0 && n > 0.0
    ensures d * n >= 0.0
  {
  }

  lemma MeanBelow(ss: seq<Sample>, line: real)
    requires ss != [] && forall i :: 0 <= i < |ss| ==> ss[i].a < line
    ensures MeanOf(ss) < line
  {
    TotalBelow(ss, line);
    QuotientBelow(Total(ss), |ss| as real, line);
  }

  lemma {:induction false} WindowIsTail(ring: seq<Sample>, now: real, span: real, k: nat, line: real)
    requires k <= |ring| && (forall i :: 0 <= i < k ==> ring[i].stamp < now - span)
    requires forall i :: k <= i < |ring| ==> ring[i].a < line
    ensures forall i :: 0 <= i < |Window(ring, now, span)| ==> Window(ring, now, span)[i].a < line
  {
    if ring == [] {
    } else {
      var init := ring[..|ring| - 1];
      WindowIsTail(init, now, span, if k <= |init| then k else |init|, line);
    }
  }

  /** Firing and clearing do not flap: with a quiet ratio of at most one half and a hold
      of at least the recovery window, an item that has just fired is not cleared by the
      evidence it fired on. */
  lemma FreshItemHolds(s: Subject, rows: seq<Hour>, weekday: int, now: real, ratio: real, hold: real)
    requires s.baseline == BaselineOf(rows, MetricOf(s.kind), weekday)
    requires 0.0 <= ratio <= 0.5 && hold >= RECENT_S
    requires forall i, j :: 0 <= i < j < |s.ring| ==> s.ring[i].stamp < s.ring[j].stamp
    requires Judged(s, false, None, now, ratio, hold).Some?
    ensures Judged(s, true, Some(Judged(s, false, None, now, ratio, hold).value.since), now, ratio, hold).Some?
  {
    var line := FiringLine(MetricOf(s.kind), ratio, s.baseline);
    var k := QuietFrom(s.ring, line);
    QuietRatioSafe(s.kind, ratio, rows, weekday);
    var recent := Window(s.ring, now, RECENT_S);
    if |recent| >= MIN_RECENT_SAMPLES {
      WindowIsTail(s.ring, now, RECENT_S, k, line);
      MeanBelow(recent, line);
    }
  }

  // ------------------------------------------------- from judgement to judgement

  function HintOf(since: map<string, real>, key: string): Option<real> {
    if key in since then Some(since[key]) else None
  }

  /** The items of one judgement, in subject order, after the timer items. */
  function Items(subjects: seq<Subject>, held: set<string>, since: map<string, real>,
                 now: real, ratio: real, hold: real): seq<Item> {
    if subjects == [] then [] else
    var s := subjects[|subjects| - 1];
    Items(subjects[..|subjects| - 1], held, since, now, ratio, hold)
    + if s.suppressed then [] else
      match Judged(s, s.key in held, HintOf(since, s.key), now, ratio, hold)
      case Some(item) => [item]
      case None => []
  }

  const MACHINE_QUIET := "machine_quiet"

  function Listeners(items: seq<Item>): seq<Item> {
    if items == [] then [] else
    Listeners(items[..|items| - 1])
    + if items[|items| - 1].kind == Quiet(Listener) then [items[|items| - 1]] else []
  }

  /** The first item about the machine itself. */
  function MachineItem(items: seq<Item>): (m: Option<Item>)
    ensures m.None? <==> forall i :: 0 <= i < |items| ==> items[i].kind != Quiet(Machine)
    ensures m.Some? ==> exists i :: 0 <= i < |items| && FirstMachine(items, i) && m.value == items[i]
  {
    if items == [] then None
    else if items[0].kind == Quiet(Machine) then assert FirstMachine(items, 0); Some(items[0])
    else
      var m := MachineItem(items[1..]);
      assert forall i :: 0 < i < |items| ==> items[i] == items[1..][i - 1];
      assert forall i :: 0 <= i < |items[1..]| && FirstMachine(items[1..], i) ==> FirstMachine(items, i + 1);
      m
  }

  ghost predicate FirstMachine(items: seq<Item>, i: int)
    requires 0 <= i < |items|
  {
    items[i].kind == Quiet(Machine) && forall j :: 0 <= j < i ==> items[j].kind != Quiet(Machine)
  }

  function Earliest(items: seq<Item>, start: real): (r: real)
    ensures r <= start && forall i :: 0 <= i < |items| ==> r <= items[i].since
    ensures r == start || exists i :: 0 <= i < |items| && r == items[i].since
  {
    if items == [] then start else
    var r := Earliest(items[..|items| - 1], start);
    if items[|items| - 1].since < r then items[|items| - 1].since else r
  }

  function Except(items: seq<Item>, folded: seq<Item>): seq<Item> {
    if items == [] then [] else
    Except(items[..|items| - 1], folded)
    + if items[|items| - 1] in folded then [] else [items[|items| - 1]]
  }

  /** `fold_machine_quiet`: (items, folded). */
  function Fold(items: seq<Item>): (seq<Item>, seq<Item>) {
    var machine := MachineItem(items);
    var listeners := Listeners(items);
    if machine.None? || |listeners| < MACHINE_FOLD then (items, []) else
    var folded := listeners + [machine.value];
    var critical := exists i :: 0 <= i < |folded| && folded[i].severity == Critical;
    var item := Item(MACHINE_QUIET, Quiet(Machine), Earliest(listeners, machine.value.since),
                     exists i :: 0 <= i < |folded| && folded[i].capped,
                     if critical then Critical else Warn);
    ([item] + Except(items, folded), folded)
  }

  predicate OfListener(item: Item) {
    item.kind == Quiet(Listener)
  }

  ghost function NotIn(items: seq<Item>): Item -> bool {
    (x: Item) => x !in items
  }

  /** The folded item speaks for all of them: since the earliest, capped or critical if any is. */
  ghost predicate SpeaksFor(item: Item, folded: seq<Item>) {
    && item.key == "machine_quiet" && item.kind == Quiet(Machine)
    && (forall i :: 0 <= i < |folded| ==> item.since <= folded[i].since)
    && (exists i :: 0 <= i < |folded| && item.since == folded[i].since)
    && (item.capped <==> exists i :: 0 <= i < |folded| && folded[i].capped)
    && (item.severity == Critical <==> exists i :: 0 <= i < |folded| && folded[i].severity == Critical)
  }

  /** With the machine itself quiet and three listeners or more, all listeners and the
      machine's first item become one, ahead of the rest; otherwise nothing is folded. */
  lemma FoldMeaning(items: seq<Item>)
    ensures var (said, folded) := Fold(items);
            var listeners := Filter(items, OfListener);
            if |listeners| < 3 || (forall i :: 0 <= i < |items| ==> items[i].kind != Quiet(Machine))
            then said == items && folded == []
            else
              && (exists i :: 0 <= i < |items| && FirstMachine(items, i) && folded == listeners + [items[i]])
              && said != [] && SpeaksFor(said[0], folded) && said[1..] == Filter(items, NotIn(folded))
  {
    ListenersFiltered(items);
    var (said, folded) := Fold(items);
    if folded != [] {
      ExceptFiltered(items, folded);
      EarliestOfAll(Listeners(items), MachineItem(items).value);
    }
  }

  lemma {:induction false} ListenersFiltered(items: seq<Item>)
    ensures Listeners(items) == Filter(items, OfListener)
  {
    if items == [] {
    } else {
      ListenersFiltered(items[..|items| - 1]);
    }
  }

  lemma {:induction false} ExceptFiltered(items: seq<Item>, folded: seq<Item>)
    ensures Except(items, folded) == Filter(items, NotIn(folded))
  {
    if items == [] {
    } else {
      ExceptFiltered(items[..|items| - 1], folded);
    }
  }

  lemma EarliestOfAll(listeners: seq<Item>, machine: Item)
    ensures var e, all := Earliest(listeners, machine.since), listeners + [machine];
            (forall i :: 0 <= i < |all| ==> e <= all[i].since) && exists i :: 0 <= i < |all| && e == all[i].since
  {
    var e, all := Earliest(listeners, machine.since), listeners + [machine];
    assert all[|listeners|] == machine;
    if i :| 0 <= i < |listeners| && e == listeners[i].since {
      assert all[i] == listeners[i];
    }
  }

  function Keys(items: seq<Item>): set<string> {
    set i | 0 <= i < |items| :: items[i].key
  }

  /** When each run began; timer items carry no run. */
  function SinceOf(items: seq<Item>): map<string, real> {
    if items == [] then map[] else
    var item := items[|items| - 1];
    var rest := SinceOf(items[..|items| - 1]);
    if item.kind.Quiet? then rest[item.key := item.since] else rest
  }

  /** What one judgement is given. */
  datatype Input = Input(subjects: seq<Subject>, timers: seq<Item>, now: real, ratio: real, hold: real)

  /** What a node remembers between judgements. */
  datatype Memory = Memory(held: set<string>, since: map<string, real>)

  function Said(m: Memory, x: Input): seq<Item> {
    Fold(x.timers + Items(x.subjects, m.held, m.since, x.now, x.ratio, x.hold)).0
  }

  function After(m: Memory, x: Input): Memory {
    Memory(Keys(Said(m, x)), SinceOf(Said(m, x)))
  }

  function AfterAll(m: Memory, xs: seq<Input>): Memory {
    if xs == [] then m else After(AfterAll(m, xs[..|xs| - 1]), xs[|xs| - 1])
  }

  /** The loop over the subjects. */
  method JudgeSubjects(subjects: seq<Subject>, held: set<string>, since: map<string, real>,
                       now: real, ratio: real, hold: real)
    returns (items: seq<Item>)
    ensures items == Items(subjects, held, since, now, ratio, hold)
  {
    items := [];
    assert subjects[..0] == [];
    for k := 0 to |subjects|
      invariant items == Items(subjects[..k], held, since, now, ratio, hold)
    {
      var s := subjects[k];
      assert subjects[..k + 1][..k] == subjects[..k];
      if !s.suppressed {
        var item := JudgeSubject(s, s.key in held, HintOf(since, s.key), now, ratio, hold);
        if item.Some? {
          items := items + [item.value];
        }
      }
    }
    assert subjects[..|subjects|] == subjects;
  }

  /** A node's memory between judgements. */
  class Node {
    var held: set<string>
    var since: map<string, real>

    constructor ()
      ensures held == {} && since == map[]
    {
      held, since := {}, map[];
    }

    method Judge(subjects: seq<Subject>, timers: seq<Item>, now: real, ratio: real, hold: real)
      returns (items: seq<Item>, folded: seq<Item>)
      modifies this
      ensures (items, folded) ==
              Fold(timers + Items(subjects, old(held), old(since), now, ratio, hold))
      ensures Memory(held, since) ==
              After(Memory(old(held), old(since)), Input(subjects, timers, now, ratio, hold))
      ensures Remembers(held, since, items)
    {
      var quiet := JudgeSubjects(subjects, held, since, now, ratio, hold);
      var both := Fold(timers + quiet);
      items, folded := both.0, both.1;
      JudgementRemembered(items);
      held, since := Keys(items), SinceOf(items);
    }
  }

  /** An item was either a timer's or the judgement of a subject of its key. */
  lemma {:induction false} ItemOrigin(subjects: seq<Subject>, held: set<string>, since: map<string, real>,
                                      now: real, ratio: real, hold: real, item: Item)
    requires item in Items(subjects, held, since, now, ratio, hold)
    ensures exists j :: 0 <= j < |subjects| && subjects[j].key == item.key && !subjects[j].suppressed &&
              Judged(subjects[j], item.key in held, HintOf(since, item.key), now, ratio, hold) == Some(item)
  {
    var k := |subjects| - 1;
    var init := subjects[..k];
    if item in Items(init, held, since, now, ratio, hold) {
      ItemOrigin(init, held, since, now, ratio, hold, item);
      var j :| 0 <= j < |init| && init[j].key == item.key && !init[j].suppressed &&
        Judged(init[j], item.key in held, HintOf(since, item.key), now, ratio, hold) == Some(item);
      assert subjects[j] == init[j];
    } else {
      assert subjects[k].key == item.key;
    }
  }

  /** And every subject that is not suppressed and has something to say is in. */
  lemma {:induction false} ItemsComplete(subjects: seq<Subject>, held: set<string>, since: map<string, real>,
                                         now: real, ratio: real, hold: real, j: nat)
    requires j < |subjects| && !subjects[j].suppressed
    ensures var s := subjects[j];
            var item := Judged(s, s.key in held, HintOf(since, s.key), now, ratio, hold);
            item.Some? ==> item.value in Items(subjects, held, since, now, ratio, hold)
  {
    if j < |subjects| - 1 {
      ItemsComplete(subjects[..|subjects| - 1], held, since, now, ratio, hold, j);
    }
  }

  /** What is remembered of a judgement: the keys of all items, and since when the last
      item of each key that is no timer's began. */
  ghost predicate Remembers(held: set<string>, since: map<string, real>, items: seq<Item>) {
    && (forall key :: key in held <==> exists i :: 0 <= i < |items| && items[i].key == key)
    && (forall key :: key in since <==> exists i :: 0 <= i < |items| && LastOf(items, key, i))
    && (forall key, i :: 0 <= i < |items| && LastOf(items, key, i) ==> key in since && since[key] == items[i].since)
  }

  ghost predicate LastOf(items: seq<Item>, key: string, i: nat)
    requires i < |items|
  {
    items[i].key == key && items[i].kind.Quiet? &&
    forall j :: i < j < |items| ==> !(items[j].key == key && items[j].kind.Quiet?)
  }

  lemma {:induction false} SinceLast(items: seq<Item>, key: string)
    ensures key in SinceOf(items) <==> exists i :: 0 <= i < |items| && LastOf(items, key, i)
    ensures forall i :: 0 <= i < |items| && LastOf(items, key, i) ==>
              key in SinceOf(items) && SinceOf(items)[key] == items[i].since
  {
    if items == [] {
    } else {
      var init, k := items[..|items| - 1], |items| - 1;
      SinceLast(init, key);
      if items[k].key == key && items[k].kind.Quiet? {
        assert LastOf(items, key, k);
      } else {
        assert forall i :: 0 <= i < k ==> (LastOf(items, key, i) <==> LastOf(init, key, i));
      }
    }
  }

  lemma JudgementRemembered(items: seq<Item>)
    ensures Remembers(Keys(items), SinceOf(items), items)
  {
    forall key ensures key in Keys(items) <==> exists i :: 0 <= i < |items| && items[i].key == key {
      SinceOfKey(items, key);
    }
    forall key
      ensures key in SinceOf(items) <==> exists i :: 0 <= i < |items| && LastOf(items, key, i)
      ensures forall i :: 0 <= i < |items| && LastOf(items, key, i) ==>
                key in SinceOf(items) && SinceOf(items)[key] == items[i].since
    {
      SinceLast(items, key);
    }
  }

  lemma {:induction false} SinceOfKey(items: seq<Item>, key: string)
    ensures key in SinceOf(items) ==>
              exists i :: 0 <= i < |items| && items[i].key == key && items[i].kind.Quiet? &&
                SinceOf(items)[key] == items[i].since
    ensures key in Keys(items) <==> exists i :: 0 <= i < |items| && items[i].key == key
  {
    if items == [] {
    } else {
      var init := items[..|items| - 1];
      SinceOfKey(init, key);
      assert forall i :: 0 <= i < |init| ==> init[i] == items[i];
      if items[|items| - 1].key != key {
        assert key in Keys(items) <==> key in Keys(init);
      }
    }
  }

  lemma {:induction false} ExceptKeeps(items: seq<Item>, folded: seq<Item>, item: Item)
    ensures item in Except(items, folded) <==> item in items && item !in folded
  {
    if items == [] {
    } else {
      ExceptKeeps(items[..|items| - 1], folded, item);
      assert items == items[..|items| - 1] + [items[|items| - 1]];
    }
  }

  lemma {:induction false} ListenersIn(items: seq<Item>, item: Item)
    ensures item in Listeners(items) <==> item in items && item.kind == Quiet(Listener)
  {
    if items == [] {
    } else {
      ListenersIn(items[..|items| - 1], item);
      assert items == items[..|items| - 1] + [items[|items| - 1]];
    }
  }

  /** Folding loses no item: each is passed on or named in the folded list. */
  lemma FoldKeeps(items: seq<Item>, item: Item)
    ensures item in Fold(items).0 && item.key != MACHINE_QUIET ==> item in items && item !in Fold(items).1
    ensures item in items ==> item in Fold(items).0 || item in Fold(items).1
    ensures item in Fold(items).1 ==> item in items
  {
    if Fold(items).1 != [] {
      ExceptKeeps(items, Fold(items).1, item);
      ListenersIn(items, item);
    }
  }

  ghost predicate NoTimer(x: Input, key: string) {
    forall i :: 0 <= i < |x.timers| ==> x.timers[i].key != key
  }

  /** What is said of a held key after one judgement, folded or not, is the judgement of
      a subject that was held. */
  lemma SaidOfHeld(m: Memory, x: Input, item: Item)
    requires item in Said(m, x) && item.key in m.held && item.key in m.since && item.key != MACHINE_QUIET
    requires NoTimer(x, item.key)
    ensures exists s :: Judged(s, true, Some(m.since[item.key]), x.now, x.ratio, x.hold) == Some(item)
  {
    FoldKeeps(x.timers + Items(x.subjects, m.held, m.since, x.now, x.ratio, x.hold), item);
    ItemOrigin(x.subjects, m.held, m.since, x.now, x.ratio, x.hold, item);
  }

  /** One subject through one judgement of its node: what was held and is passed on
      unfolded starts no later than before.  (Keys are one per subject, and distinct
      from the timers' and the folded item's.) */
  lemma HeldSubjectNeverLater(m: Memory, x: Input, key: string)
    requires key in m.held && key in m.since && key != MACHINE_QUIET
    requires NoTimer(x, key)
    ensures key in After(m, x).since ==> key in After(m, x).held && After(m, x).since[key] <= m.since[key]
  {
    var items := Said(m, x);
    SinceOfKey(items, key);
    if key in SinceOf(items) {
      var i :| 0 <= i < |items| && items[i].key == key && items[i].kind.Quiet? &&
        SinceOf(items)[key] == items[i].since;
      SaidOfHeld(m, x, items[i]);
      var s :| Judged(s, true, Some(m.since[key]), x.now, x.ratio, x.hold) == Some(items[i]);
      HeldNeverShrinks(s, m.since[key], x.now, x.now, x.ratio, x.hold);
    }
  }

  /** The key is remembered after each of the judgements, and belongs to no timer. */
  ghost predicate StaysHeld(m: Memory, xs: seq<Input>, key: string) {
    && key in m.held && key in m.since
    && (xs != [] ==>
          && StaysHeld(m, xs[..|xs| - 1], key)
          && NoTimer(xs[|xs| - 1], key)
          && key in AfterAll(m, xs).held && key in AfterAll(m, xs).since)
  }

  lemma {:induction false} NeverLater(m: Memory, xs: seq<Input>, key: string)
    requires StaysHeld(m, xs, key) && key != MACHINE_QUIET
    ensures key in AfterAll(m, xs).held && key in AfterAll(m, xs).since
    ensures AfterAll(m, xs).since[key] <= m.since[key]
  {
    if xs == [] {
    } else {
      NeverLater(m, xs[..|xs| - 1], key);
      HeldSubjectNeverLater(AfterAll(m, xs[..|xs| - 1]), xs[|xs| - 1], key);
    }
  }

  /** Over any sequence of judgements through which a key stays held and unfolded: what
      is said of it at the last starts no later than at the first and has lasted no less,
      and once critical for its duration it is critical to the end. */
  lemma SilenceOnlyGrows(m: Memory, wasNow: real, xs: seq<Input>, x: Input, key: string, item: Item)
    requires StaysHeld(m, xs, key) && key != MACHINE_QUIET && wasNow <= x.now
    requires NoTimer(x, key)
    requires item in Said(AfterAll(m, xs), x) && item.key == key
    ensures item.since <= m.since[key] && x.now - item.since >= wasNow - m.since[key]
    ensures wasNow - m.since[key] >= HOLD_CRIT_S ==> item.severity == Critical
  {
    NeverLater(m, xs, key);
    var now := AfterAll(m, xs);
    SaidOfHeld(now, x, item);
    var s :| Judged(s, true, Some(now.since[key]), x.now, x.ratio, x.hold) == Some(item);
    HeldNeverShrinks(s, now.since[key], wasNow, x.now, x.ratio, x.hold);
  }

  /** Folding forgets: a folded item's key is neither held nor remembered afterwards,
      when no other item of the judgement shares the key. */
  lemma FoldForgets(items: seq<Item>, item: Item)
    requires item in Fold(items).1 && item.key != MACHINE_QUIET
    requires forall i, j :: 0 <= i < j < |items| ==> items[i].key != items[j].key
    ensures item.key !in Keys(Fold(items).0) && item.key !in SinceOf(Fold(items).0)
  {
    var after := Fold(items).0;
    FoldKeeps(items, item);
    SinceOfKey(after, item.key);
    forall i | 0 <= i < |after| ensures after[i].key != item.key {
      FoldKeeps(items, after[i]);
    }
  }

  /** So at the judgement after a fold a subject's silence counts from the ring again,
      whatever was known before: a silence older than the ring moves later, and with a
      ring shorter than three hours it cannot turn critical by duration. */
  lemma AfterFoldFromRing(s: Subject, held: set<string>, since: map<string, real>, now: real, ratio: real, hold: real)
    requires s.key !in held && s.key !in since && Chronological(s.ring, now) && s.ring != []
    requires Judged(s, s.key in held, HintOf(since, s.key), now, ratio, hold).Some?
    ensures var item := Judged(s, s.key in held, HintOf(since, s.key), now, ratio, hold).value;
            item.since >= s.ring[0].stamp &&
            (now - s.ring[0].stamp < HOLD_CRIT_S && item.severity == Critical ==>
               s.kind == Listener && s.isPublic && s.baseline.median >= BUSY_PUBLIC)
  {
    SinceFromRing(s, false, now, ratio, hold);
  }

  // A fold after which a silence begins later than it did: three listeners and the machine
  // are quiet and folded, and at the next judgement only one of them still is.

  const BUSY := Baseline(Seasonal, 4, 80_000_000.0, 40_000_000.0, 90_000_000.0, 1.0, true)

  /** `n` silent samples, a minute apart, the last of them now. */
  function SilentRing(now: real, n: nat): (r: seq<Sample>)
    ensures |r| == n
    decreases n
  {
    if n == 0 then [] else SilentRing(now - 60.0, n - 1) + [Sample(now, 0.0, 0.0, false)]
  }

  function Silent(key: string, kind: Kind, now: real): Subject {
    Subject(key, kind, false, false, SilentRing(now, 20), BUSY)
  }

  /** The start of a ring of n samples that ends at `now`. */
  function StartOf(now: real, n: nat): real {
    now - 60.0 * (n as real - 1.0)
  }

  lemma {:induction false} SilentRingMeaning(now: real, n: nat, at: real)
    requires at - WINDOW_S <= StartOf(now, n)
    ensures Window(SilentRing(now, n), at, WINDOW_S) == SilentRing(now, n)
    ensures Total(SilentRing(now, n)) == 0.0 && ActiveCount(SilentRing(now, n)) == 0
    ensures n > 0 ==> SilentRing(now, n)[0].stamp == StartOf(now, n)
    ensures forall i :: 0 <= i < n ==> SilentRing(now, n)[i].a == 0.0
    decreases n
  {
    if n == 0 {
    } else {
      SilentRingMeaning(now - 60.0, n - 1, at);
      assert SilentRing(now, n)[..n - 1] == SilentRing(now - 60.0, n - 1);
    }
  }

  lemma {:induction false} SilentWindow(ring: seq<Sample>, now: real, span: real)
    requires forall i :: 0 <= i < |ring| ==> ring[i].a == 0.0
    ensures Total(Window(ring, now, span)) == 0.0
  {
    if ring == [] {
    } else {
      SilentWindow(ring[..|ring| - 1], now, span);
      var init := Window(ring[..|ring| - 1], now, span);
      assert (init + [ring[|ring| - 1]])[..|init|] == init && init + [] == init;
    }
  }

  lemma NoShare(total: real, n: nat)
    requires total == 0.0 && n > 0
    ensures total / n as real == 0.0
  {
  }

  lemma ZeroMean(ss: seq<Sample>)
    requires ss != [] && Total(ss) == 0.0
    ensures MeanOf(ss) == 0.0
  {
    NoShare(Total(ss), |ss|);
  }

  lemma SilentSpeaks(key: string, kind: Kind, now: real, held: bool)
    ensures Speaks(Silent(key, kind, now), held, now, 0.25)
  {
    var ring := SilentRing(now, 20);
    SilentRingMeaning(now, 20, now);
    ZeroMean(ring);
    NoShare(ActiveCount(ring) as real, |ring|);
    var recent := Window(ring, now, RECENT_S);
    SilentWindow(ring, now, RECENT_S);
    if recent != [] {
      ZeroMean(recent);
    }
    assert FiringLine(MetricOf(kind), 0.25, BUSY) > 0.0 && RecoveryLine(BUSY) > 0.0;
  }

  /** It is said at once, and begins with the ring unless an earlier start is remembered. */
  lemma SilentJudged(key: string, kind: Kind, now: real, held: bool, hint: Option<real>)
    requires hint.Some? ==> hint.value < StartOf(now, 20) && now - hint.value < HOLD_CRIT_S
    ensures Judged(Silent(key, kind, now), held, hint, now, 0.25, 600.0) ==
            Some(Item(key, Quiet(kind), if hint.Some? then hint.value else StartOf(now, 20), hint.None?, Warn))
  {
    SilentSpeaks(key, kind, now, held);
    SilentRingMeaning(now, 20, now);
    assert QuietFrom(SilentRing(now, 20), FiringLine(MetricOf(kind), 0.25, BUSY)) == 0;
  }

  lemma ItemsAppend(subjects: seq<Subject>, key: string, kind: Kind, held: set<string>, since: map<string, real>,
                    now: real)
    requires key in since ==> since[key] < StartOf(now, 20) && now - since[key] < HOLD_CRIT_S
    ensures Items(subjects + [Silent(key, kind, now)], held, since, now, 0.25, 600.0) ==
            Items(subjects, held, since, now, 0.25, 600.0) +
            [Item(key, Quiet(kind), if key in since then since[key] else StartOf(now, 20), key !in since, Warn)]
  {
    assert (subjects + [Silent(key, kind, now)])[..|subjects|] == subjects;
    SilentJudged(key, kind, now, key in held, HintOf(since, key));
  }

  lemma ListenersAppend(items: seq<Item>, item: Item)
    ensures Listeners(items + [item]) == Listeners(items) + if item.kind == Quiet(Listener) then [item] else []
  {
    assert (items + [item])[..|items|] == items;
  }

  const BEFORE := Memory({"a", "b", "c", "m"}, map["a" := 0.0, "b" := 0.0, "c" := 0.0, "m" := 0.0])

  function AllFour(now: real): Input {
    Input([Silent("a", Listener, now)] + [Silent("b", Listener, now)] + [Silent("c", Listener, now)] +
          [Silent("m", Machine, now)], [], now, 0.25, 600.0)
  }

  function OnlyOne(now: real): Input {
    Input([Silent("a", Listener, now)], [], now, 0.25, 600.0)
  }

  function Since0(key: string, kind: Kind): Item {
    Item(key, Quiet(kind), 0.0, false, Warn)
  }

  /** The four, held since 0, are said to be silent since 0. */
  lemma FourSaid(now: real)
    requires 0.0 < StartOf(now, 20) && now < HOLD_CRIT_S
    ensures Items(AllFour(now).subjects, BEFORE.held, BEFORE.since, now, 0.25, 600.0) ==
            [Since0("a", Listener)] + [Since0("b", Listener)] + [Since0("c", Listener)] + [Since0("m", Machine)]
  {
    var held, since := BEFORE.held, BEFORE.since;
    var a, b, c := Silent("a", Listener, now), Silent("b", Listener, now), Silent("c", Listener, now);
    ItemsAppend([], "a", Listener, held, since, now);
    assert [] + [a] == [a] && [] + [Since0("a", Listener)] == [Since0("a", Listener)];
    ItemsAppend([a], "b", Listener, held, since, now);
    ItemsAppend([a] + [b], "c", Listener, held, since, now);
    ItemsAppend([a] + [b] + [c], "m", Machine, held, since, now);
  }

  /** Three listeners and the machine are folded into one item. */
  lemma FourFold(w: Item, x: Item, y: Item, z: Item)
    requires w.kind == x.kind == y.kind == Quiet(Listener) && z.kind == Quiet(Machine)
    ensures w in Fold([w] + [x] + [y] + [z]).1
  {
    var items := [w] + [x] + [y] + [z];
    ListenersAppend([], w);
    assert [] + [w] == [w];
    ListenersAppend([w], x);
    ListenersAppend([w] + [x], y);
    ListenersAppend([w] + [x] + [y], z);
    assert Listeners(items) + [] == Listeners(items) == [w] + [x] + [y];
    assert items[3].kind == Quiet(Machine);
    assert ([w] + [x] + [y])[0] == w;
  }

  lemma FourForgotten(w: Item, x: Item, y: Item, z: Item)
    requires w.kind == x.kind == y.kind == Quiet(Listener) && z.kind == Quiet(Machine)
    requires w.key != x.key && w.key != y.key && w.key != z.key && x.key != y.key && x.key != z.key && y.key != z.key
    requires w.key != MACHINE_QUIET
    ensures var said := Fold([w] + [x] + [y] + [z]).0;
            w.key !in Keys(said) && w.key !in SinceOf(said)
  {
    FourFold(w, x, y, z);
    var items := [w] + [x] + [y] + [z];
    assert items[0] == w && items[1] == x && items[2] == y && items[3] == z;
    FoldForgets(items, w);
  }

  lemma SaidWithoutTimers(m: Memory, x: Input, items: seq<Item>)
    requires x.timers == [] && items == Items(x.subjects, m.held, m.since, x.now, x.ratio, x.hold)
    ensures After(m, x) == Memory(Keys(Fold(items).0), SinceOf(Fold(items).0))
  {
    assert [] + items == items;
  }

  lemma FourAreFolded(now: real)
    requires 0.0 < StartOf(now, 20) && now < HOLD_CRIT_S
    ensures "a" !in After(BEFORE, AllFour(now)).held && "a" !in After(BEFORE, AllFour(now)).since
  {
    var w, x, y, z := Since0("a", Listener), Since0("b", Listener), Since0("c", Listener), Since0("m", Machine);
    FourSaid(now);
    SaidWithoutTimers(BEFORE, AllFour(now), [w] + [x] + [y] + [z]);
    FourForgotten(w, x, y, z);
  }

  /** What is said of one silent subject alone is not folded. */
  lemma OnlySaid(m: Memory, now: real)
    requires "a" !in m.since
    ensures After(m, OnlyOne(now)).since == map["a" := StartOf(now, 20)]
  {
    ItemsAppend([], "a", Listener, m.held, m.since, now);
    var item := Item("a", Quiet(Listener), StartOf(now, 20), true, Warn);
    assert [] + [Silent("a", Listener, now)] == [Silent("a", Listener, now)] && [] + [item] == [item];
    SaidWithoutTimers(m, OnlyOne(now), [item]);
    assert Fold([item]).0 == [item] && [item][..0] == [];
    assert SinceOf([item]) == map[][item.key := item.since];
  }

  /** The silence of "a" was known to have begun at 0; folded once, it begins with its ring. */
  lemma FoldMovesSince(now: real)
    requires 0.0 < StartOf(now, 20) && now < HOLD_CRIT_S
    ensures BEFORE.since["a"] == 0.0
    ensures var after := After(After(BEFORE, AllFour(now)), OnlyOne(now + 60.0)).since;
            "a" in after && after["a"] == StartOf(now + 60.0, 20) > BEFORE.since["a"]
  {
    FourAreFolded(now);
    OnlySaid(After(BEFORE, AllFour(now)), now + 60.0);
  }
}
