/** Which sections of an agent's report are kept, dropped or refused
    (the section loop of `sanitise_report`), on top of the in-place walk. */
module SanitiseReport {
  import opened Scrub

  const DICT_SECTIONS: set<string> := {
    "cpu", "memory", "psi", "pressures", "gpu", "disk", "network",
    "network_detail", "ports", "sync", "process_table", "diagnosis", "services",
    "system", "volumes", "events", "errors", "timings", "sampler",
    "cgroups", "kernel", "changes", "ceilings", "outage", "prognosis", "coroner"
  }
  const SCALAR_META: set<string> := {
    "warm", "warmup_stage", "server_started_at", "now", "ts", "elevated"
  }
  const MAX_META_CHARS: nat := 128
  const ELLIPSIS: CodePoint := 0x2026

  function Pow2(n: nat): (r: int)
    ensures r > 0
  {
    if n == 0 then 1 else 2 * Pow2(n - 1)
  }

  /** The least integer magnitude a double cannot be converted from. */
  const FLOAT_OVERFLOW: int := Pow2(1024) - Pow2(970)

  function Short(s: Text): (r: Text)
    ensures |s| <= 128 ==> r == s
    ensures |s| > 128 ==> |r| == 128 && r[..127] == s[..127] && r[127] == 0x2026
  {
    if |s| <= MAX_META_CHARS then s else s[..MAX_META_CHARS - 1] + [ELLIPSIS]
  }

  datatype Reason = NotAnObject | NestedTooDeep | NotAScalar | UnknownSection

  datatype Outcome = Kept | Skipped | Dropped(why: Reason) | Raises

  function Magnitude(n: int): nat {
    if n < 0 then -n else n
  }

  /** A bare value offered for one of the scalar fields. */
  function ScalarOutcome(a: Scalar): Outcome {
    match a
    case Bool(_) => Kept
    // math.isfinite first converts to a double, and raises when it cannot.
    case Int(n) => if Magnitude(n) >= FLOAT_OVERFLOW then Raises
                   else if Magnitude(n) < INT_BOUND then Kept else Dropped(NotAScalar)
    case Float(x) => if -(INT_BOUND as real) < x < INT_BOUND as real then Kept else Dropped(NotAScalar)
    case Str(_) => Kept
    case Null => Dropped(NotAScalar)
  }

  /** The fate of one section, from its name and the tree it carries. */
  ghost function OutcomeOf(key: string, t: Tree): Outcome {
    if key in DICT_SECTIONS then
      if t == Leaf(Null) then Skipped
      else if t.Leaf? || t.box.shape.List? then Dropped(NotAnObject)
      else if Depth([t]) > MAX_DEPTH then Dropped(NestedTooDeep)
      else Kept
    else if key in SCALAR_META then
      if t.Leaf? then ScalarOutcome(t.a) else Dropped(NotAScalar)
    else Dropped(UnknownSection)
  }

  /** What is stored for a kept section. */
  ghost function StoredTree(t: Tree): Tree {
    match t
    case Leaf(Str(s)) => Leaf(Str(Short(s)))
    case Leaf(_) => t
    case Node(_, _) => Clean([t])[0]
  }

  ghost function KeptUpTo(keys: seq<string>, ts: seq<Tree>, n: nat): seq<(string, Value)>
    requires |keys| == |ts| && n <= |ts|
  {
    if n == 0 then [] else
    KeptUpTo(keys, ts, n - 1)
    + if OutcomeOf(keys[n - 1], ts[n - 1]) == Kept then [(keys[n - 1], Root(StoredTree(ts[n - 1])))] else []
  }

  ghost function KeptTrees(keys: seq<string>, ts: seq<Tree>, n: nat): seq<Tree>
    requires |keys| == |ts| && n <= |ts|
  {
    if n == 0 then [] else
    KeptTrees(keys, ts, n - 1) + if OutcomeOf(keys[n - 1], ts[n - 1]) == Kept then [StoredTree(ts[n - 1])] else []
  }

  ghost function DroppedUpTo(keys: seq<string>, ts: seq<Tree>, n: nat): seq<(string, Reason)>
    requires |keys| == |ts| && n <= |ts|
  {
    if n == 0 then [] else
    DroppedUpTo(keys, ts, n - 1)
    + match OutcomeOf(keys[n - 1], ts[n - 1])
      case Dropped(why) => [(keys[n - 1], why)]
      case _ => []
  }

  /** What is kept is storable exactly when a scalar field's text encodes once shortened
      and every key below a kept dict encodes: the walk repairs values, never keys. */
  lemma KeptIsStorable(key: string, t: Tree)
    requires OutcomeOf(key, t) == Kept
    ensures AllStorable([StoredTree(t)]) <==>
              (t.Leaf? && t.a.Str? ==> Encodable(Short(t.a.s))) && KeysEncode([t])
  {
    var st := StoredTree(t);
    assert [st][1..] == [] && [t][1..] == [];
    if t.Node? {
      CleanMeaning([t]);
      assert [st] == Clean([t]);
    } else {
      assert KeysEncode([t]) && KeysEncode([st]);
      assert LeavesStorable([st]) <==> Storable(st.a);
    }
  }

  /** A lone surrogate in a scalar field reaches the snapshot unrepaired. */
  lemma UnrepairedScalarExample()
    ensures OutcomeOf("warmup_stage", Leaf(Str([0xD800]))) == Kept
    ensures !AllStorable([StoredTree(Leaf(Str([0xD800])))])
  {
    var t := Leaf(Str([0xD800]));
    KeptIsStorable("warmup_stage", t);
    assert Surrogate(Short([0xD800])[0]);
  }

  /** So does one in a key of a section, whose values are all fine. */
  lemma UnrepairedKeyExample(box: Container)
    requires box.shape == Dict([[0xD800]])
    ensures var t := Node(box, [Leaf(Null)]);
            OutcomeOf("cpu", t) == Kept && LeavesStorable([StoredTree(t)]) && !AllStorable([StoredTree(t)])
  {
    var t := Node(box, [Leaf(Null)]);
    assert [t][1..] == [] && [Leaf(Null)][1..] == [];
    assert Depth([Leaf(Null)]) == 0 && Depth([t]) == 1;
    CleanMeaning([t]);
    assert [StoredTree(t)] == Clean([t]);
    KeptIsStorable("cpu", t);
    assert Surrogate(box.shape.keys[0][0]);
  }

  lemma {:induction false} Pow2Doubles(m: nat, n: nat)
    requires m < n
    ensures Pow2(n) >= 2 * Pow2(m)
    decreases n
  {
    if n > m + 1 {
      Pow2Doubles(m, n - 1);
    }
  }

  lemma {:induction false} Pow2Times(n: nat, k: nat)
    ensures Pow2(n + k) == Pow2(n) * Pow2(k)
  {
    if k > 0 {
      Pow2Times(n, k - 1);
    }
  }

  lemma Pow2Of64()
    ensures Pow2(64) == 0x1_0000_0000_0000_0000
  {
    assert Pow2(4) == 16;
    Pow2Times(4, 4);
    Pow2Times(8, 8);
    Pow2Times(16, 16);
    Pow2Times(32, 32);
  }

  lemma OverflowIsFar()
    ensures FLOAT_OVERFLOW > INT_BOUND
  {
    var far, low, high := 64, 970, 1024;
    Pow2Of64();
    Pow2Doubles(far, low);
    Pow2Doubles(low, high);
  }

  /** A bare bool or text, or a number strictly within 2 to the 63. */
  ghost predicate FitsScalar(t: Tree) {
    t.Leaf? &&
    match t.a
    case Bool(_) => true
    case Str(_) => true
    case Int(n) => -9_223_372_036_854_775_808 < n < 9_223_372_036_854_775_808
    case Float(x) => -9_223_372_036_854_775_808.0 < x < 9_223_372_036_854_775_808.0
    case Null => false
  }

  /** A dict, no deeper than allowed. */
  ghost predicate FitsSection(t: Tree) {
    t.Node? && t.box.shape.Dict? && Depth([t]) <= 24
  }

  /** Each fate, exactly.  The error that escapes needs an integer no double is near, in a
      scalar field; */
  lemma FateMeaning(key: string, t: Tree)
    ensures var o, dict := OutcomeOf(key, t), key in DICT_SECTIONS;
            var scalar := !dict && key in SCALAR_META;
            && (o == Kept <==> (dict && FitsSection(t)) || (scalar && FitsScalar(t)))
            && (o == Skipped <==> dict && t == Leaf(Null))
            && (o == Dropped(NotAnObject) <==> dict && t != Leaf(Null) && !(t.Node? && t.box.shape.Dict?))
            && (o == Dropped(NestedTooDeep) <==> dict && t.Node? && t.box.shape.Dict? && !FitsSection(t))
            && (o == Dropped(UnknownSection) <==> !dict && !scalar)
            && (o == Raises <==> scalar && t.Leaf? && t.a.Int? && (t.a.n >= FLOAT_OVERFLOW || -t.a.n >= FLOAT_OVERFLOW))
            && (o == Dropped(NotAScalar) <==> scalar && !FitsScalar(t) && o != Raises)
  {
    OverflowIsFar();
  }

  /** such as 2 to the 1024 for "now". */
  lemma RaisingExample()
    ensures OutcomeOf("now", Leaf(Int(Pow2(1024)))) == Raises
  {
    assert Pow2(1024) >= FLOAT_OVERFLOW;
    FateMeaning("now", Leaf(Int(Pow2(1024))));
  }

  ghost predicate DistinctKeys(keys: seq<string>) {
    forall i, j :: 0 <= i < j < |keys| ==> keys[i] != keys[j]
  }

  lemma InAppended<T>(s: seq<T>, x: T)
    ensures forall e :: e in s + [x] <==> e in s || e == x
    ensures s + [] == s
  {
  }

  lemma {:induction false} KeptPlaces(keys: seq<string>, ts: seq<Tree>, n: nat, i: nat)
    requires |keys| == |ts| && i < |ts| && n <= |ts| && DistinctKeys(keys)
    ensures forall v :: (keys[i], v) in KeptUpTo(keys, ts, n) <==>
                        i < n && OutcomeOf(keys[i], ts[i]) == Kept && v == Root(StoredTree(ts[i]))
    ensures forall e :: e in KeptUpTo(keys, ts, n) ==> e.0 in keys
  {
    if n == 0 {
    } else {
      KeptPlaces(keys, ts, n - 1, i);
      assert i != n - 1 ==> keys[i] != keys[n - 1];
      InAppended(KeptUpTo(keys, ts, n - 1), (keys[n - 1], Root(StoredTree(ts[n - 1]))));
    }
  }

  lemma {:induction false} DroppedPlaces(keys: seq<string>, ts: seq<Tree>, n: nat, i: nat)
    requires |keys| == |ts| && i < |ts| && n <= |ts| && DistinctKeys(keys)
    ensures forall why :: (keys[i], why) in DroppedUpTo(keys, ts, n) <==>
                          i < n && OutcomeOf(keys[i], ts[i]) == Dropped(why)
    ensures forall e :: e in DroppedUpTo(keys, ts, n) ==> e.0 in keys
  {
    if n == 0 {
    } else {
      DroppedPlaces(keys, ts, n - 1, i);
      assert i != n - 1 ==> keys[i] != keys[n - 1];
      match OutcomeOf(keys[n - 1], ts[n - 1])
      case Dropped(why) => InAppended(DroppedUpTo(keys, ts, n - 1), (keys[n - 1], why));
      case _ => InAppended(DroppedUpTo(keys, ts, n - 1), ("", NotAScalar));
    }
  }

  /** Which section went where: it is in the snapshot exactly when kept, under its own
      name and as its stored tree, and in the drop list exactly when dropped, with its own
      reason; nothing else is in either. */
  lemma SectionPlaces(keys: seq<string>, ts: seq<Tree>, i: nat)
    requires |keys| == |ts| && i < |ts| && DistinctKeys(keys)
    ensures forall v :: (keys[i], v) in KeptUpTo(keys, ts, |ts|) <==>
                        OutcomeOf(keys[i], ts[i]) == Kept && v == Root(StoredTree(ts[i]))
    ensures forall why :: (keys[i], why) in DroppedUpTo(keys, ts, |ts|) <==>
                          OutcomeOf(keys[i], ts[i]) == Dropped(why)
    ensures forall e :: e in KeptUpTo(keys, ts, |ts|) ==> e.0 in keys
    ensures forall e :: e in DroppedUpTo(keys, ts, |ts|) ==> e.0 in keys
  {
    KeptPlaces(keys, ts, |ts|, i);
    DroppedPlaces(keys, ts, |ts|, i);
  }

  /** The heap below `t` currently holds the tree `now`. */
  ghost predicate Present(t: Tree, now: Tree)
    reads Cells([t])
  {
    Holds(Snapshot(Cells([t])), [now])
  }

  lemma StoredHolds(h: Heap, t: Tree)
    ensures t.Leaf? ==> Holds(h, [StoredTree(t)])
  {
    assert [StoredTree(t)][1..] == [];
  }

  /** The body of the loop for one section. */
  method SanitiseOne(key: string, value: Value, ghost t: Tree) returns (o: Outcome, stored: Value)
    requires value == Root(t) && Distinct([t]) && Present(t, t)
    modifies Cells([t])
    ensures o == OutcomeOf(key, t)
    ensures o == Kept ==> stored == Root(StoredTree(t)) && Present(t, StoredTree(t))
  {
    stored := value;
    StoredHolds(Snapshot(Cells([t])), t);
    if key in DICT_SECTIONS {
      if value == Atom(Null) {
        return Skipped, stored;
      } else if value.Atom? || value.box.shape.List? {
        return Dropped(NotAnObject), stored;
      }
      var deep := ScrubWalk(value.box, t);
      if deep {
        return Dropped(NestedTooDeep), stored;
      }
      CleanMeaning([t]);
      assert Clean([t]) == [StoredTree(t)];
      return Kept, stored;
    } else if key in SCALAR_META {
      if value.Ref? {
        return Dropped(NotAScalar), stored;
      }
      if value.a.Str? {
        stored := Atom(Str(Short(value.a.s)));
      }
      return ScalarOutcome(value.a), stored;
    } else {
      return Dropped(UnknownSection), stored;
    }
  }

  lemma {:induction false} Frame(h: Heap, g: Heap, ts: seq<Tree>)
    requires Holds(h, ts)
    requires forall c :: c in Cells(ts) && c in h ==> c in g && g[c] == h[c]
    ensures Holds(g, ts)
  {
    if ts == [] {
    } else {
      Frame(h, g, ts[1..]);
      if ts[0].Node? {
        Frame(h, g, ts[0].kids);
      }
    }
  }

  lemma HeadSection(h: Heap, ts: seq<Tree>)
    requires ts != [] && Distinct(ts) && Holds(h, ts)
    ensures Distinct([ts[0]]) && Holds(h, [ts[0]]) && Distinct(ts[1..]) && Cells(ts[1..]) <= Cells(ts)
    ensures Cells([ts[0]]) <= Cells(ts)
  {
    Concat([ts[0]], ts[1..], h);
    assert [ts[0]] + ts[1..] == ts;
  }

  /** Cleaning the next section leaves the finished and the waiting ones alone. */
  lemma NextSection(before: Heap, after: Heap, done: seq<Tree>, ts: seq<Tree>, stored: Tree, kept: bool)
    requires ts != [] && Distinct(ts) && Cells(done) !! Cells(ts)
    requires Holds(before, done) && Holds(before, ts)
    requires forall c :: c in before && c !in Cells([ts[0]]) ==> c in after && after[c] == before[c]
    requires kept ==> Holds(after, [stored]) && Cells([stored]) == Cells([ts[0]])
    ensures var now := done + if kept then [stored] else [];
            Holds(after, now) && Holds(after, ts[1..]) && Cells(now) !! Cells(ts[1..])
  {
    Concat([ts[0]], ts[1..], before);
    assert [ts[0]] + ts[1..] == ts;
    Frame(before, after, done);
    Frame(before, after, ts[1..]);
    Concat(done, [stored], after);
    assert done + [] == done;
  }

  lemma StoredCells(t: Tree)
    ensures Cells([StoredTree(t)]) == Cells([t])
  {
    CleanMeaning([t]);
    assert t.Node? ==> Clean([t]) == [StoredTree(t)];
    assert t.Leaf? ==> [StoredTree(t)][1..] == [] && [t][1..] == [];
  }

  /** In mid-loop: the kept sections are stored clean, the waiting ones untouched. */
  ghost predicate Underway(done: seq<Tree>, rest: seq<Tree>, all: set<Container>)
    reads all
  {
    Holds(Snapshot(all), done) && Holds(Snapshot(all), rest) &&
    Distinct(rest) && Cells(rest) <= all && Cells(done) !! Cells(rest)
  }

  /** The body of the loop, seen among the other sections. */
  method SanitiseHead(key: string, value: Value, ghost done: seq<Tree>, ghost rest: seq<Tree>,
                      ghost all: set<Container>)
    returns (o: Outcome, stored: Value)
    requires rest != [] && value == Root(rest[0]) && Underway(done, rest, all)
    modifies all
    ensures o == OutcomeOf(key, rest[0]) && (o == Kept ==> stored == Root(StoredTree(rest[0])))
    ensures Underway(done + if o == Kept then [StoredTree(rest[0])] else [], rest[1..], all)
  {
    ghost var t, before := rest[0], Snapshot(all);
    HeadSection(before, rest);
    Frame(before, Snapshot(Cells([t])), [t]);
    o, stored := SanitiseOne(key, value, t);
    ghost var after := Snapshot(all);
    if o == Kept {
      StoredCells(t);
      Frame(Snapshot(Cells([t])), after, [StoredTree(t)]);
    }
    NextSection(before, after, done, rest, StoredTree(t), o == Kept);
  }

  lemma OneMoreSection(keys: seq<string>, ts: seq<Tree>, n: nat, o: Outcome)
    requires |keys| == |ts| && n < |ts| && o == OutcomeOf(keys[n], ts[n])
    ensures KeptUpTo(keys, ts, n + 1) ==
            KeptUpTo(keys, ts, n) + if o == Kept then [(keys[n], Root(StoredTree(ts[n])))] else []
    ensures KeptTrees(keys, ts, n + 1) == KeptTrees(keys, ts, n) + if o == Kept then [StoredTree(ts[n])] else []
    ensures DroppedUpTo(keys, ts, n + 1) ==
            DroppedUpTo(keys, ts, n) + match o case Dropped(why) => [(keys[n], why)] case _ => []
  {
  }

  /** The section loop.  `raised` is the OverflowError that escapes it. */
  method SanitiseSections(sections: seq<(string, Value)>, ghost keys: seq<string>, ghost ts: seq<Tree>)
    returns (snapshot: seq<(string, Value)>, dropped: seq<(string, Reason)>, raised: bool)
    requires |sections| == |keys| == |ts|
    requires forall i :: 0 <= i < |ts| ==> sections[i] == (keys[i], Root(ts[i]))
    requires Distinct(ts) && Holds(Snapshot(Cells(ts)), ts)
    modifies Cells(ts)
    ensures raised <==> exists i :: 0 <= i < |ts| && OutcomeOf(keys[i], ts[i]) == Raises
    ensures !raised ==> snapshot == KeptUpTo(keys, ts, |ts|) && dropped == DroppedUpTo(keys, ts, |ts|)
    // The heap now holds the stored tree of every kept section.
    ensures !raised ==> Holds(Snapshot(Cells(ts)), KeptTrees(keys, ts, |ts|))
  {
    snapshot, dropped, raised := [], [], false;
    ghost var all := Cells(ts);
    var n := 0;
    assert ts[0..] == ts;
    while n < |sections|
      invariant 0 <= n <= |ts|
      invariant forall i :: 0 <= i < n ==> OutcomeOf(keys[i], ts[i]) != Raises
      invariant snapshot == KeptUpTo(keys, ts, n) && dropped == DroppedUpTo(keys, ts, n)
      invariant Underway(KeptTrees(keys, ts, n), ts[n..], all)
    {
      var (key, value) := sections[n];
      var o, stored := SanitiseHead(key, value, KeptTrees(keys, ts, n), ts[n..], all);
      assert ts[n..][1..] == ts[n + 1..] && ts[n..][0] == ts[n];
      OneMoreSection(keys, ts, n, o);
      match o {
        case Raises => return [], [], true;
        case Kept => snapshot := snapshot + [(key, stored)];
        case Dropped(why) => dropped := dropped + [(key, why)];
        case Skipped =>
      }
      n := n + 1;
    }
  }
}
