/** The life of a notification (`Notifier.observe`, `sweep`, `drop`, `forget_node`):
    what is said about one finding between its appearance and its removal, and when a
    node is said to have gone quiet or come back. */
module Notify {
  import opened Prelude
  import opened RateLimits

  const RESOLVE_GRACE_S: real := 120.0
  const SILENT_DROP_S: real := 900.0
  const OFFLINE_AFTER_S: real := 180.0

  /** The two severities that can page someone. */
  datatype Severity = Warn | Critical

  function Rank(s: Severity): nat {
    if s == Warn then 1 else 2
  }

  /** One finding of a diagnosis; None for a severity that is neither. */
  datatype Finding = Finding(key: string, severity: Option<Severity>, expected: bool)

  datatype Config = Config(channels: bool, offline: bool, resolved: bool, minRank: nat)

  type Key = (string, string)

  datatype Entry = Entry(first: real, last: real, severity: Severity, sent: bool, absentSince: Option<real>)

  datatype Event = Said | Escalated | Resolved

  // ---------------------------------------------------------------- one entry

  /** What the loop over one diagnosis does to the entry of a finding in it. */
  function Touch(held: Option<Entry>, sev: Severity, now: real, cfg: Config): (Entry, Option<Event>) {
    var e := match held
             case None => Entry(now, now, sev, false, None)
             case Some(was) => was;
    var escalate := Rank(sev) > Rank(e.severity);
    var say := cfg.channels && Rank(sev) >= cfg.minRank && (!e.sent || escalate);
    (Entry(e.first, now, if escalate then sev else e.severity, e.sent || say, None),
     if say then Some(if e.sent then Escalated else Said) else None)
  }

  datatype Fate = Stays | Dropped | Cleared

  /** What a sweep does to an entry. */
  function SweepOne(e: Entry, seen: real, now: real): Fate {
    if now - seen > SILENT_DROP_S then Dropped
    else if e.absentSince.Some? && now - e.absentSince.value >= RESOLVE_GRACE_S then Cleared
    else Stays
  }

  // --------------------------------------------------------- what was observed

  /** One diagnosis of one node: which active, unexpected keys it carried. */
  datatype Seen = Seen(node: string, now: real, keys: set<string>)

  /** When the key began to be missing from every diagnosis of its node, if it is. */
  ghost function MissingSince(trace: seq<Seen>, node: string, key: string): Option<real> {
    if trace == [] then None else
    var o := trace[|trace| - 1];
    var before := MissingSince(trace[..|trace| - 1], node, key);
    if o.node != node then before
    else if key in o.keys then None
    else if before.Some? then before else Some(o.now)
  }

  /** From some diagnosis at that time on, none of the node's carries the key. */
  lemma {:induction false} MissingMeaning(trace: seq<Seen>, node: string, key: string)
    requires MissingSince(trace, node, key).Some?
    ensures exists i :: 0 <= i < |trace| && trace[i].node == node &&
              trace[i].now == MissingSince(trace, node, key).value &&
              forall j :: i <= j < |trace| && trace[j].node == node ==> key !in trace[j].keys
  {
    var init, o := trace[..|trace| - 1], trace[|trace| - 1];
    if MissingSince(init, node, key).Some? {
      MissingMeaning(init, node, key);
      var i :| 0 <= i < |init| && init[i].node == node && init[i].now == MissingSince(init, node, key).value &&
        forall j :: i <= j < |init| && init[j].node == node ==> key !in init[j].keys;
      assert trace[i] == init[i];
      forall j | i <= j < |trace| && trace[j].node == node ensures key !in trace[j].keys {
        assert j < |init| ==> trace[j] == init[j];
      }
    } else {
      assert trace[|trace| - 1].now == MissingSince(trace, node, key).value;
    }
  }

  /** With a nondecreasing clock: nothing the node said after that time had the key. */
  lemma MissingThroughout(trace: seq<Seen>, node: string, key: string, since: real)
    requires MissingSince(trace, node, key).Some? && MissingSince(trace, node, key).value <= since
    requires forall i, j :: 0 <= i < j < |trace| ==> trace[i].now <= trace[j].now
    ensures forall j :: 0 <= j < |trace| && trace[j].node == node && trace[j].now > since ==> key !in trace[j].keys
  {
    MissingMeaning(trace, node, key);
  }

  // ---------------------------------------------------- all entries, by life

  /** One stay of a key in the table, from creation to removal, and what was said. */
  datatype Life = Life(key: Key, word: seq<Event>)

  /** The entries, with the ghost record of every life there ever was. */
  datatype Board = Board(active: map<Key, Entry>, lives: seq<Life>, current: map<Key, nat>)

  /** At most one announcement, then at most one escalation, then at most one
      resolution, and never a later one without the first. */
  ghost predicate Lawful(word: seq<Event>) {
    word == [] || word == [Said] || word == [Said, Escalated] ||
    word == [Said, Resolved] || word == [Said, Escalated, Resolved]
  }

  ghost predicate LiveWord(e: Entry, word: seq<Event>) {
    if !e.sent then word == []
    else word == [Said] || (word == [Said, Escalated] && e.severity == Critical)
  }

  ghost predicate EntryOk(b: Board, k: Key) {
    k in b.active ==>
      k in b.current && b.current[k] < |b.lives| && b.lives[b.current[k]].key == k &&
      LiveWord(b.active[k], b.lives[b.current[k]].word)
  }

  ghost predicate BoardOk(b: Board) {
    (forall k :: EntryOk(b, k)) && forall i :: 0 <= i < |b.lives| ==> Lawful(b.lives[i].word)
  }

  ghost function EntryOf(b: Board, k: Key): Option<Entry> {
    if k in b.active then Some(b.active[k]) else None
  }

  /** One finding of a diagnosis, on the record. */
  ghost function Touched(b: Board, k: Key, sev: Severity, now: real, cfg: Config): Board
    requires BoardOk(b)
  {
    var (e, event) := Touch(EntryOf(b, k), sev, now, cfg);
    assert EntryOk(b, k);
    var life := if k in b.active then b.current[k] else |b.lives|;
    var lives := if k in b.active then b.lives else b.lives + [Life(k, [])];
    var word := lives[life].word + if event.Some? then [event.value] else [];
    Board(b.active[k := e], lives[life := Life(k, word)], b.current[k := life])
  }

  lemma TouchStep(b: Board, k: Key, sev: Severity, now: real, cfg: Config)
    requires BoardOk(b)
    ensures BoardOk(Touched(b, k, sev, now, cfg))
  {
    var t := Touched(b, k, sev, now, cfg);
    assert EntryOk(b, k);
    forall x ensures EntryOk(t, x) {
      assert EntryOk(b, x);
    }
  }

  /** The findings that count: active and not expected. */
  function Counting(f: Finding): bool {
    f.severity.Some? && !f.expected
  }

  ghost function KeysOf(fs: seq<Finding>): set<string> {
    set i | 0 <= i < |fs| && Counting(fs[i]) :: fs[i].key
  }

  ghost function TouchedAll(b: Board, node: string, fs: seq<Finding>, now: real, cfg: Config): (r: Board)
    requires BoardOk(b)
    ensures BoardOk(r)
  {
    if fs == [] then b else
    var before := TouchedAll(b, node, fs[..|fs| - 1], now, cfg);
    var f := fs[|fs| - 1];
    if Counting(f) then
      TouchStep(before, (node, f.key), f.severity.value, now, cfg);
      Touched(before, (node, f.key), f.severity.value, now, cfg)
    else before
  }

  /** Entries of the node that the diagnosis did not mention start their grace. */
  ghost function Graced(active: map<Key, Entry>, node: string, keys: set<string>, now: real): map<Key, Entry> {
    map k | k in active ::
      if k.0 == node && k.1 !in keys && active[k].absentSince.None?
      then active[k].(absentSince := Some(now)) else active[k]
  }

  ghost predicate AbsenceOk(b: Board, trace: seq<Seen>, k: Key) {
    k in b.active ==> b.active[k].absentSince == MissingSince(trace, k.0, k.1)
  }

  lemma {:induction false} TouchedAllEntry(b: Board, node: string, fs: seq<Finding>, now: real, cfg: Config, k: Key)
    requires BoardOk(b)
    ensures var t := TouchedAll(b, node, fs, now, cfg);
            if k.0 == node && k.1 in KeysOf(fs)
            then k in t.active && t.active[k].absentSince == None && t.active[k].last == now
            else (k in t.active <==> k in b.active) && (k in b.active ==> t.active[k] == b.active[k])
  {
    if fs == [] {
    } else {
      var init, f := fs[..|fs| - 1], fs[|fs| - 1];
      TouchedAllEntry(b, node, init, now, cfg, k);
      KeysOfAppend(init, f);
      assert fs == init + [f];
    }
  }

  lemma KeysOfAppend(fs: seq<Finding>, f: Finding)
    ensures KeysOf(fs + [f]) == KeysOf(fs) + if Counting(f) then {f.key} else {}
  {
    var all := fs + [f];
    forall x | x in KeysOf(fs) ensures x in KeysOf(all) {
      var i :| 0 <= i < |fs| && Counting(fs[i]) && fs[i].key == x;
      assert all[i] == fs[i];
    }
    assert all[|fs|] == f;
  }

  /** After a whole diagnosis: every entry's absence is that of the extended trace. */
  lemma ObserveStep(b: Board, trace: seq<Seen>, node: string, fs: seq<Finding>, now: real, cfg: Config)
    requires BoardOk(b) && forall k :: AbsenceOk(b, trace, k)
    ensures var t := TouchedAll(b, node, fs, now, cfg);
            var after := t.(active := Graced(t.active, node, KeysOf(fs), now));
            BoardOk(after) && forall k :: AbsenceOk(after, trace + [Seen(node, now, KeysOf(fs))], k)
  {
    var t := TouchedAll(b, node, fs, now, cfg);
    var after := t.(active := Graced(t.active, node, KeysOf(fs), now));
    var longer := trace + [Seen(node, now, KeysOf(fs))];
    assert longer[..|trace|] == trace;
    forall k ensures EntryOk(after, k) {
      assert EntryOk(t, k);
    }
    forall k ensures AbsenceOk(after, longer, k) {
      assert AbsenceOk(b, trace, k);
      TouchedAllEntry(b, node, fs, now, cfg, k);
    }
  }

  function LastHeard(seen: map<string, real>, node: string, now: real): real {
    if node in seen then seen[node] else now
  }

  ghost predicate Resolves(b: Board, seen: map<string, real>, now: real, k: Key) {
    k in b.active && b.active[k].sent && SweepOne(b.active[k], LastHeard(seen, k.0, now), now) == Cleared
  }

  ghost function ResolvedKeys(b: Board, seen: map<string, real>, now: real): set<Key> {
    set k | k in b.active && Resolves(b, seen, now, k)
  }

  /** The node was last heard of more than fifteen minutes ago. */
  ghost predicate Silent(seen: map<string, real>, node: string, now: real) {
    node in seen && now - seen[node] > 900.0
  }

  ghost predicate AbsentLong(e: Entry, now: real) {
    e.absentSince.Some? && now - e.absentSince.value >= 120.0
  }

  /** A sweep, on the record; `announce` says whether resolutions are sent. */
  ghost function Swept(b: Board, seen: map<string, real>, now: real, announce: bool): Board {
    Board(map k | k in b.active && SweepOne(b.active[k], LastHeard(seen, k.0, now), now) == Stays :: b.active[k],
          seq(|b.lives|, i requires 0 <= i < |b.lives| =>
            var life := b.lives[i];
            if announce && life.key in b.current && b.current[life.key] == i && Resolves(b, seen, now, life.key)
            then Life(life.key, life.word + [Resolved]) else life),
          b.current)
  }

  lemma SweepStep(b: Board, seen: map<string, real>, now: real, announce: bool, trace: seq<Seen>)
    requires BoardOk(b) && forall k :: AbsenceOk(b, trace, k)
    ensures BoardOk(Swept(b, seen, now, announce))
    ensures forall k :: AbsenceOk(Swept(b, seen, now, announce), trace, k)
  {
    var t := Swept(b, seen, now, announce);
    forall k ensures EntryOk(t, k) && AbsenceOk(t, trace, k) {
      assert EntryOk(b, k) && AbsenceOk(b, trace, k);
    }
    forall i | 0 <= i < |t.lives| ensures Lawful(t.lives[i].word) {
      assert EntryOk(b, b.lives[i].key);
    }
  }

  /** "Resolved" is only ever said of a key missing from the active, unexpected findings
      its node reported in the last two minutes (and since `absentSince` at the latest). */
  lemma ResolvedMeansAbsent(b: Board, seen: map<string, real>, now: real, trace: seq<Seen>, k: Key)
    requires (forall x :: AbsenceOk(b, trace, x)) && Resolves(b, seen, now, k)
    requires forall i, j :: 0 <= i < j < |trace| ==> trace[i].now <= trace[j].now
    ensures b.active[k].absentSince.Some? && now - b.active[k].absentSince.value >= RESOLVE_GRACE_S
    ensures forall j :: 0 <= j < |trace| && trace[j].node == k.0 && trace[j].now > now - RESOLVE_GRACE_S ==>
              k.1 !in trace[j].keys
  {
    assert AbsenceOk(b, trace, k);
    MissingThroughout(trace, k.0, k.1, now - RESOLVE_GRACE_S);
  }

  // ------------------------------------------------------- silence and return

  /** Going quiet and coming back take turns, going quiet first. */
  ghost predicate Alternates(swaps: seq<bool>) {
    forall i :: 0 <= i < |swaps| ==> swaps[i] == (i % 2 == 0)
  }

  ghost predicate SwapsOk(offline: set<string>, swaps: map<string, seq<bool>>, n: string) {
    var s := if n in swaps then swaps[n] else [];
    Alternates(s) && (n in offline <==> |s| % 2 == 1)
  }

  datatype Message = About(key: Key, event: Event) | BackOnline(node: string) | WentOffline(node: string)

  /** The messages of one diagnosis, in order. */
  ghost function Spoken(b: Board, node: string, fs: seq<Finding>, now: real, cfg: Config): seq<Message>
    requires BoardOk(b)
  {
    if fs == [] then [] else
    var init, f := fs[..|fs| - 1], fs[|fs| - 1];
    Spoken(b, node, init, now, cfg) +
    if !Counting(f) then [] else
    match Touch(EntryOf(TouchedAll(b, node, init, now, cfg), (node, f.key)), f.severity.value, now, cfg).1
    case Some(event) => [About((node, f.key), event)]
    case None => []
  }

  // ---------------------------------------- what one diagnosis must say

  /** The i-th finding counts, active and not expected, and is about the key. */
  ghost predicate Names(fs: seq<Finding>, i: int, key: string) {
    0 <= i < |fs| && fs[i].severity.Some? && !fs[i].expected && fs[i].key == key
  }

  ghost predicate AtFloor(sev: Severity, cfg: Config) {
    (sev == Warn && cfg.minRank <= 1) || (sev == Critical && cfg.minRank <= 2)
  }

  /** What has been said of the key in its present life. */
  ghost function Word(b: Board, k: Key): seq<Event> {
    if k in b.active && k in b.current && b.current[k] < |b.lives| then b.lives[b.current[k]].word else []
  }

  /** What some messages say of the key. */
  ghost function EventsOf(messages: seq<Message>, k: Key): seq<Event> {
    if messages == [] then [] else
    var m := messages[|messages| - 1];
    EventsOf(messages[..|messages| - 1], k) + if m.About? && m.key == k then [m.event] else []
  }

  ghost predicate Announced(b: Board, k: Key) {
    Said in Word(b, k)
  }

  /** Some finding of the key reaches the floor. */
  ghost predicate Reaches(fs: seq<Finding>, key: string, cfg: Config) {
    exists i :: Names(fs, i, key) && AtFloor(fs[i].severity.value, cfg)
  }

  ghost predicate Mentions(fs: seq<Finding>, key: string) {
    exists i :: Names(fs, i, key)
  }

  ghost predicate Worst(fs: seq<Finding>, key: string) {
    exists i :: Names(fs, i, key) && fs[i].severity == Some(Critical)
  }

  /** At the i-th finding the key, announced before and so far a warning, becomes critical. */
  ghost predicate RisesAt(b: Board, k: Key, fs: seq<Finding>, i: nat, cfg: Config) {
    && Names(fs, i, k.1) && fs[i].severity == Some(Critical)
    && (k in b.active ==> b.active[k].severity == Warn) && !Worst(fs[..i], k.1)
    && (Announced(b, k) || Reaches(fs[..i], k.1, cfg))
  }

  ghost predicate Rises(b: Board, k: Key, fs: seq<Finding>, cfg: Config) {
    exists i :: RisesAt(b, k, fs, i, cfg)
  }

  ghost predicate EntryTold(b: Board, t: Board, fs: seq<Finding>, now: real, k: Key) {
    && (k in t.active <==> k in b.active || Mentions(fs, k.1))
    && (k in t.active ==>
          && (t.active[k].severity == Critical <==>
                (k in b.active && b.active[k].severity == Critical) || Worst(fs, k.1))
          && t.active[k].first == (if k in b.active then b.active[k].first else now)
          && (Mentions(fs, k.1) ==> t.active[k].last == now)
          && (t.active[k].sent <==> Announced(t, k)))
  }

  /** One key after one diagnosis: its entry exists when it did or the diagnosis names it,
      is as grave as the worst it has been named with, and as old as its life; it is
      announced now exactly when it reaches the floor and was not before, and said to have
      escalated exactly when it rises to the floor; and what was said is on record. */
  ghost predicate KeyTold(b: Board, t: Board, said: seq<Message>, fs: seq<Finding>, now: real, cfg: Config, k: Key) {
    && EntryTold(b, t, fs, now, k)
    && Word(t, k) == Word(b, k) + EventsOf(said, k)
    && (About(k, Said) in said <==> cfg.channels && !Announced(b, k) && Reaches(fs, k.1, cfg))
    && (About(k, Escalated) in said <==> cfg.channels && AtFloor(Critical, cfg) && Rises(b, k, fs, cfg))
  }

  /** Nothing is said twice, of another node, without channels, or of what is below the floor. */
  ghost predicate OnlySays(said: seq<Message>, node: string, fs: seq<Finding>, cfg: Config) {
    && (forall m :: m in said ==>
          && m.About? && m.key.0 == node && (m.event == Said || m.event == Escalated)
          && cfg.channels && Reaches(fs, m.key.1, cfg))
    && (forall m :: multiset(said)[m] <= 1)
  }

  /** What one diagnosis does and says: of each key of the node as above (so that, with
      channels, all that reaches the floor is announced by then), and nothing else; other
      nodes' entries stay. */
  ghost predicate Tells(b: Board, t: Board, said: seq<Message>, node: string, fs: seq<Finding>, now: real,
                        cfg: Config) {
    && (forall k: Key :: k.0 == node ==> KeyTold(b, t, said, fs, now, cfg, k)) && OnlySays(said, node, fs, cfg)
    && (cfg.channels ==> forall key :: Reaches(fs, key, cfg) ==> Announced(t, (node, key)))
    && (forall k: Key :: k.0 != node ==> EntryOf(t, k) == EntryOf(b, k))
  }

  lemma NamesAppend(fs: seq<Finding>, f: Finding, key: string, cfg: Config)
    ensures var counts := f.severity.Some? && !f.expected && f.key == key;
            && (Mentions(fs + [f], key) <==> Mentions(fs, key) || counts)
            && (Worst(fs + [f], key) <==> Worst(fs, key) || (counts && f.severity.value == Critical))
            && (Reaches(fs + [f], key, cfg) <==> Reaches(fs, key, cfg) || (counts && AtFloor(f.severity.value, cfg)))
  {
    var all := fs + [f];
    forall i ensures Names(all, i, key) <==> Names(fs, i, key) || (i == |fs| && Names(all, |fs|, key)) {
      if 0 <= i < |fs| {
        assert all[i] == fs[i];
      }
    }
    if Mentions(fs, key) {
      var i :| Names(fs, i, key);
      assert Names(all, i, key);
    }
    if Worst(fs, key) {
      var i :| Names(fs, i, key) && fs[i].severity == Some(Critical);
      assert Names(all, i, key) && all[i] == fs[i];
    }
    if Reaches(fs, key, cfg) {
      var i :| Names(fs, i, key) && AtFloor(fs[i].severity.value, cfg);
      assert Names(all, i, key) && all[i] == fs[i];
    }
    assert all[|fs|] == f;
    if f.severity.Some? && !f.expected && f.key == key {
      assert Names(all, |fs|, key);
    }
  }

  lemma RisesAppend(b: Board, k: Key, fs: seq<Finding>, f: Finding, cfg: Config)
    ensures Rises(b, k, fs + [f], cfg) <==> Rises(b, k, fs, cfg) || RisesAt(b, k, fs + [f], |fs|, cfg)
  {
    var all := fs + [f];
    forall i: nat | i < |fs| ensures RisesAt(b, k, all, i, cfg) <==> RisesAt(b, k, fs, i, cfg) {
      assert all[i] == fs[i] && all[..i] == fs[..i];
    }
    if Rises(b, k, fs, cfg) {
      var i :| RisesAt(b, k, fs, i, cfg);
      assert RisesAt(b, k, all, i, cfg);
    }
  }

  lemma EventsAppend(said: seq<Message>, m: Message, k: Key)
    ensures EventsOf(said + [m], k) == EventsOf(said, k) + if m.About? && m.key == k then [m.event] else []
  {
    assert (said + [m])[..|said|] == said;
  }

  /** A finding leaves the entries and the record of other keys alone. */
  lemma AfterElsewhere(t: Board, node: string, f: Finding, now: real, cfg: Config, k: Key)
    requires BoardOk(t) && (Counting(f) ==> f.key != k.1)
    ensures var (u, more) := After(t, node, f, now, cfg);
            && EntryOf(u, k) == EntryOf(t, k) && Word(u, k) == Word(t, k)
            && |more| <= 1 && forall m :: m in more ==> m.About? && m.key != k
  {
    assert EntryOk(t, k) && EntryOk(t, (node, f.key));
  }

  lemma EventsElsewhere(said: seq<Message>, more: seq<Message>, k: Key)
    requires |more| <= 1 && forall m :: m in more ==> m.About? && m.key != k
    ensures EventsOf(said + more, k) == EventsOf(said, k)
    ensures forall e :: About(k, e) in said + more <==> About(k, e) in said
  {
    if more == [] {
      assert said + more == said;
    } else {
      assert more == [more[0]];
      EventsAppend(said, more[0], k);
    }
  }

  /** One finding more, for a key it is not about. */
  lemma TellElsewhere(b: Board, t: Board, said: seq<Message>, node: string, fs: seq<Finding>, f: Finding, now: real,
                      cfg: Config, k: Key)
    requires BoardOk(t) && KeyTold(b, t, said, fs, now, cfg, k) && k.0 == node
    requires Counting(f) ==> f.key != k.1
    ensures var (u, more) := After(t, node, f, now, cfg); KeyTold(b, u, said + more, fs + [f], now, cfg, k)
  {
    var (u, more) := After(t, node, f, now, cfg);
    AfterElsewhere(t, node, f, now, cfg, k);
    EventsElsewhere(said, more, k);
    NamesAppend(fs, f, k.1, cfg);
    RisesAppend(b, k, fs, f, cfg);
    assert (fs + [f])[|fs|] == f;
    assert (k in u.active <==> k in t.active) && (k in t.active ==> u.active[k] == t.active[k]);
  }

  /** What one finding does: the board, and what is said. */
  ghost function After(t: Board, node: string, f: Finding, now: real, cfg: Config): (Board, seq<Message>)
    requires BoardOk(t)
  {
    if !Counting(f) then (t, []) else
    var k := (node, f.key);
    (Touched(t, k, f.severity.value, now, cfg),
     match Touch(EntryOf(t, k), f.severity.value, now, cfg).1
     case Some(event) => [About(k, event)]
     case None => [])
  }

  /** When something is said of a finding: with channels, at the floor, and not announced
      yet, or risen. */
  lemma TouchMeaning(held: Option<Entry>, sev: Severity, now: real, cfg: Config)
    ensures var (e, event) := Touch(held, sev, now, cfg);
            var risen := sev == Critical && held.Some? && held.value.severity == Warn;
            var sent := held.Some? && held.value.sent;
            && (event == Some(Said) <==> cfg.channels && AtFloor(sev, cfg) && !sent)
            && (event == Some(Escalated) <==> cfg.channels && AtFloor(sev, cfg) && sent && risen)
            && event != Some(Resolved)
            && e.sent == (sent || event == Some(Said))
            && (e.severity == Critical <==> sev == Critical || (held.Some? && held.value.severity == Critical))
            && e.first == (if held.Some? then held.value.first else now) && e.last == now && e.absentSince == None
  {
  }

  /** What is on record of the key it is about, one finding on. */
  lemma WordGrows(t: Board, node: string, f: Finding, now: real, cfg: Config)
    requires BoardOk(t) && Counting(f)
    ensures var k := (node, f.key);
            var (u, more) := After(t, node, f, now, cfg);
            var event := Touch(EntryOf(t, k), f.severity.value, now, cfg).1;
            && more == (if event.Some? then [About(k, event.value)] else [])
            && Word(u, k) == Word(t, k) + (if event.Some? then [event.value] else [])
            && u.active[k] == Touch(EntryOf(t, k), f.severity.value, now, cfg).0
            && (k in t.active ==> (t.active[k].sent <==> Announced(t, k)))
            && (k !in t.active ==> Word(t, k) == [])
            && (Escalated in Word(t, k) ==> t.active[k].severity == Critical)
  {
    assert EntryOk(t, (node, f.key));
  }

  /** And for the one it is about. */
  lemma TellHere(b: Board, t: Board, said: seq<Message>, node: string, fs: seq<Finding>, f: Finding, now: real,
                 cfg: Config)
    requires BoardOk(t) && KeyTold(b, t, said, fs, now, cfg, (node, f.key)) && Counting(f)
    ensures var (u, more) := After(t, node, f, now, cfg); KeyTold(b, u, said + more, fs + [f], now, cfg, (node, f.key))
  {
    var k := (node, f.key);
    var (u, more) := After(t, node, f, now, cfg);
    var event := Touch(EntryOf(t, k), f.severity.value, now, cfg).1;
    TouchMeaning(EntryOf(t, k), f.severity.value, now, cfg);
    WordGrows(t, node, f, now, cfg);
    NamesAppend(fs, f, k.1, cfg);
    assert Names(fs + [f], |fs|, k.1) && (fs + [f])[..|fs|] == fs;
    assert EntryTold(b, u, fs + [f], now, k);
    WordHere(b, t, u, said, more, event, k);
    SaidHere(b, t, said, fs, f, now, cfg, k);
  }

  lemma WordHere(b: Board, t: Board, u: Board, said: seq<Message>, more: seq<Message>, event: Option<Event>, k: Key)
    requires Word(t, k) == Word(b, k) + EventsOf(said, k)
    requires more == if event.Some? then [About(k, event.value)] else []
    requires Word(u, k) == Word(t, k) + if event.Some? then [event.value] else []
    ensures Word(u, k) == Word(b, k) + EventsOf(said + more, k)
  {
    if event.Some? {
      EventsAppend(said, more[0], k);
    } else {
      assert said + more == said;
    }
  }

  lemma SaidHere(b: Board, t: Board, said: seq<Message>, fs: seq<Finding>, f: Finding, now: real, cfg: Config, k: Key)
    requires BoardOk(t) && KeyTold(b, t, said, fs, now, cfg, k) && Counting(f) && k.1 == f.key
    ensures var (_, more) := After(t, k.0, f, now, cfg);
            && (About(k, Said) in said + more <==> cfg.channels && !Announced(b, k) && Reaches(fs + [f], k.1, cfg))
            && (About(k, Escalated) in said + more <==>
                  cfg.channels && AtFloor(Critical, cfg) && Rises(b, k, fs + [f], cfg))
  {
    var event := Touch(EntryOf(t, k), f.severity.value, now, cfg).1;
    TouchMeaning(EntryOf(t, k), f.severity.value, now, cfg);
    WordGrows(t, k.0, f, now, cfg);
    NamesAppend(fs, f, k.1, cfg);
    RisesAppend(b, k, fs, f, cfg);
    assert (fs + [f])[..|fs|] == fs && (fs + [f])[|fs|] == f;
    AnnouncedSoFar(b, t, said, fs, now, cfg, k);
    assert event == Some(Escalated) <==>
           cfg.channels && AtFloor(Critical, cfg) && RisesAt(b, k, fs + [f], |fs|, cfg);
  }

  lemma {:induction false} EventsMember(said: seq<Message>, k: Key, e: Event)
    ensures e in EventsOf(said, k) <==> About(k, e) in said
  {
    if said == [] {
    } else {
      EventsMember(said[..|said| - 1], k, e);
      assert said == said[..|said| - 1] + [said[|said| - 1]];
    }
  }

  /** With channels, announced by now is announced before or having reached the floor. */
  lemma AnnouncedSoFar(b: Board, t: Board, said: seq<Message>, fs: seq<Finding>, now: real, cfg: Config, k: Key)
    requires KeyTold(b, t, said, fs, now, cfg, k)
    ensures Announced(t, k) <==> Announced(b, k) || (cfg.channels && Reaches(fs, k.1, cfg))
  {
    EventsMember(said, k, Said);
  }

  lemma {:induction false} KeyTells(b: Board, node: string, fs: seq<Finding>, now: real, cfg: Config, k: Key)
    requires BoardOk(b) && k.0 == node
    ensures KeyTold(b, TouchedAll(b, node, fs, now, cfg), Spoken(b, node, fs, now, cfg), fs, now, cfg, k)
  {
    if fs == [] {
      assert EntryOk(b, k);
      assert Word(b, k) + [] == Word(b, k);
    } else {
      var init, f := fs[..|fs| - 1], fs[|fs| - 1];
      KeyTells(b, node, init, now, cfg, k);
      assert fs == init + [f];
      var t, said := TouchedAll(b, node, init, now, cfg), Spoken(b, node, init, now, cfg);
      if Counting(f) && f.key == k.1 {
        TellHere(b, t, said, node, init, f, now, cfg);
      } else {
        TellElsewhere(b, t, said, node, init, f, now, cfg, k);
      }
    }
  }

  lemma KeysMentioned(fs: seq<Finding>)
    ensures forall key :: key in KeysOf(fs) <==> Mentions(fs, key)
  {
    forall key | Mentions(fs, key) ensures key in KeysOf(fs) {
      var i :| Names(fs, i, key);
      assert fs[i].key == key;
    }
    forall key | key in KeysOf(fs) ensures Mentions(fs, key) {
      var i :| 0 <= i < |fs| && Counting(fs[i]) && fs[i].key == key;
      assert Names(fs, i, key);
    }
  }

  lemma OnlyOnce(said: seq<Message>, m: Message)
    requires (forall x :: multiset(said)[x] <= 1) && m !in said
    ensures forall x :: multiset(said + [m])[x] <= 1
  {
  }

  lemma {:induction false} SpokenOnlySays(b: Board, node: string, fs: seq<Finding>, now: real, cfg: Config)
    requires BoardOk(b)
    ensures OnlySays(Spoken(b, node, fs, now, cfg), node, fs, cfg)
  {
    if fs == [] {
    } else {
      var init, f := fs[..|fs| - 1], fs[|fs| - 1];
      SpokenOnlySays(b, node, init, now, cfg);
      assert fs == init + [f];
      var t, said := TouchedAll(b, node, init, now, cfg), Spoken(b, node, init, now, cfg);
      OneMoreSaid(b, t, said, node, init, f, now, cfg);
    }
  }

  lemma OneMoreSaid(b: Board, t: Board, said: seq<Message>, node: string, fs: seq<Finding>, f: Finding, now: real,
                    cfg: Config)
    requires BoardOk(b) && BoardOk(t) && OnlySays(said, node, fs, cfg)
    requires t == TouchedAll(b, node, fs, now, cfg) && said == Spoken(b, node, fs, now, cfg)
    ensures OnlySays(said + After(t, node, f, now, cfg).1, node, fs + [f], cfg)
  {
    forall m | m in said ensures Reaches(fs + [f], m.key.1, cfg) {
      NamesAppend(fs, f, m.key.1, cfg);
    }
    var more := After(t, node, f, now, cfg).1;
    if more == [] {
      assert said + more == said;
    } else {
      var k := (node, f.key);
      KeyTells(b, node, fs, now, cfg, k);
      NamesAppend(fs, f, f.key, cfg);
      WordGrows(t, node, f, now, cfg);
      TouchMeaning(EntryOf(t, k), f.severity.value, now, cfg);
      EventsMember(said, k, Said);
      EventsMember(said, k, Escalated);
      OnlyOnce(said, more[0]);
    }
  }

  /** The grace of what was not mentioned changes nothing of this. */
  lemma GracedTold(b: Board, t: Board, said: seq<Message>, fs: seq<Finding>, now: real, cfg: Config, k: Key)
    requires KeyTold(b, t, said, fs, now, cfg, k)
    ensures KeyTold(b, t.(active := Graced(t.active, k.0, KeysOf(fs), now)), said, fs, now, cfg, k)
  {
    var after := t.(active := Graced(t.active, k.0, KeysOf(fs), now));
    assert Word(after, k) == Word(t, k);
  }

  lemma ObserveTells(b: Board, node: string, fs: seq<Finding>, now: real, cfg: Config)
    requires BoardOk(b)
    ensures var t := TouchedAll(b, node, fs, now, cfg);
            Tells(b, t.(active := Graced(t.active, node, KeysOf(fs), now)), Spoken(b, node, fs, now, cfg), node, fs,
                  now, cfg)
  {
    var t := TouchedAll(b, node, fs, now, cfg);
    forall k: Key | k.0 == node
      ensures KeyTold(b, t.(active := Graced(t.active, node, KeysOf(fs), now)), Spoken(b, node, fs, now, cfg), fs, now,
                      cfg, k)
    {
      KeyTells(b, node, fs, now, cfg, k);
      GracedTold(b, t, Spoken(b, node, fs, now, cfg), fs, now, cfg, k);
    }
    SpokenOnlySays(b, node, fs, now, cfg);
    var after := t.(active := Graced(t.active, node, KeysOf(fs), now));
    forall key | cfg.channels && Reaches(fs, key, cfg) ensures Announced(after, (node, key)) {
      AnnouncedSoFar(b, after, Spoken(b, node, fs, now, cfg), fs, now, cfg, (node, key));
    }
    forall k: Key | k.0 != node ensures EntryOf(after, k) == EntryOf(b, k) {
      TouchedAllEntry(b, node, fs, now, cfg, k);
    }
  }

  ghost predicate WorthSaying(m: Message, resolved: set<Key>, gone: set<string>, intermittent: set<string>,
                              cfg: Config) {
    match m
    case About(k, e) => e == Resolved && cfg.channels && cfg.resolved && k in resolved
    case WentOffline(n) => cfg.channels && cfg.offline && n !in intermittent && n in gone
    case BackOnline(n) => false
  }

  /** Each resolution and each silence that is to be told, told once, and nothing else. */
  ghost predicate SaysOnce(messages: seq<Message>, resolved: set<Key>, gone: set<string>, intermittent: set<string>,
                           cfg: Config) {
    (forall m :: m in messages <==> WorthSaying(m, resolved, gone, intermittent, cfg)) &&
    forall m :: multiset(messages)[m] <= 1
  }

  /** What a sweep puts into words, from what it found. */
  method SweepMessages(resolved: set<Key>, gone: set<string>, intermittent: set<string>, cfg: Config)
    returns (messages: seq<Message>)
    ensures SaysOnce(messages, resolved, gone, intermittent, cfg)
  {
    messages := [];
    if !cfg.channels {
      return;
    }
    if cfg.resolved {
      var todo := resolved;
      while todo != {}
        invariant forall m :: m in messages <==> m.About? && m.event == Resolved && m.key in resolved - todo
        invariant forall m :: multiset(messages)[m] <= 1
        invariant todo <= resolved
      {
        var k :| k in todo;
        messages := messages + [About(k, Resolved)];
        todo := todo - {k};
      }
    }
    if cfg.offline {
      ghost var before := messages;
      var todo := gone;
      while todo != {}
        invariant forall m :: m in messages <==>
                    m in before || (m.WentOffline? && m.node in gone - todo && m.node !in intermittent)
        invariant forall m :: multiset(messages)[m] <= 1
        invariant todo <= gone
      {
        var n :| n in todo;
        if n !in intermittent {
          messages := messages + [WentOffline(n)];
        }
        todo := todo - {n};
      }
    }
  }

  class Notifier {
    var active: map<Key, Entry>
    var nodeSeen: map<string, real>
    var offline: set<string>
    var intermittent: set<string>
    const outbox: Outbox
    ghost var lives: seq<Life>
    ghost var current: map<Key, nat>
    ghost var trace: seq<Seen>
    ghost var swaps: map<string, seq<bool>>

    ghost function Now(): Board
      reads this
    {
      Board(active, lives, current)
    }

    ghost predicate Valid()
      reads this
    {
      && BoardOk(Now())
      && (forall k :: AbsenceOk(Now(), trace, k))
      && (forall n :: SwapsOk(offline, swaps, n))
    }

    constructor (now: real)
      ensures Valid() && fresh(outbox) && outbox.Valid() && outbox.last == now
      ensures active == map[] && lives == [] && trace == [] && swaps == map[] && offline == {}
    {
      outbox := new Outbox(now);
      active, nodeSeen, offline, intermittent := map[], map[], {}, {};
      lives, current, trace, swaps := [], map[], [], map[];
    }

    /** Hand messages to the rate-limited outbox, whatever room its queue has. */
    method Send(messages: seq<Message>, clock: real)
      requires outbox.Valid() && outbox.last <= clock
      modifies outbox
      ensures outbox.Valid() && outbox.last <= clock && outbox.offered == old(outbox.offered) + |messages|
    {
      for i := 0 to |messages|
        invariant outbox.Valid() && outbox.last <= clock && outbox.offered == old(outbox.offered) + i
      {
        var full: bool := *;
        var admitted := outbox.Enqueue(clock, full);
      }
    }

    /** One diagnosis of one node. */
    method Observe(node: string, fs: seq<Finding>, now: real, cfg: Config, clock: real)
      returns (messages: seq<Message>, ghost said: seq<Message>)
      requires Valid() && outbox.Valid() && outbox.last <= clock
      modifies this, outbox
      ensures Valid() && outbox.Valid() && outbox.last <= clock
      ensures var t := TouchedAll(old(Now()), node, fs, now, cfg);
              Now() == t.(active := Graced(t.active, node, KeysOf(fs), now))
      // What is said of findings, and that their entries are as they should be.
      ensures said == Spoken(old(Now()), node, fs, now, cfg)
      ensures Tells(old(Now()), Now(), said, node, fs, now, cfg)
      ensures trace == old(trace) + [Seen(node, now, KeysOf(fs))]
      ensures forall key :: key in trace[|trace| - 1].keys <==> Mentions(fs, key)
      ensures offline == old(offline) - {node} && nodeSeen == old(nodeSeen)[node := now]
      // The return is announced once, and only to those who want to hear of it.
      ensures messages ==
              (if node in old(offline) && cfg.offline && cfg.channels && node !in intermittent
               then [BackOnline(node)] else []) + said
      ensures intermittent == old(intermittent) && outbox.offered == old(outbox.offered) + |messages|
    {
      messages := Return(node, now, cfg);
      var told := ObserveFindings(node, fs, now, cfg);
      said := told;
      messages := messages + told;
      Send(messages, clock);
    }

    /** Without the node's return and the delivery. */
    method ObserveFindings(node: string, fs: seq<Finding>, now: real, cfg: Config) returns (said: seq<Message>)
      requires BoardOk(Now()) && forall k :: AbsenceOk(Now(), trace, k)
      modifies this`active, this`lives, this`current, this`trace
      ensures BoardOk(Now()) && forall k :: AbsenceOk(Now(), trace, k)
      ensures var t := TouchedAll(old(Now()), node, fs, now, cfg);
              Now() == t.(active := Graced(t.active, node, KeysOf(fs), now))
      ensures said == Spoken(old(Now()), node, fs, now, cfg)
      ensures Tells(old(Now()), Now(), said, node, fs, now, cfg)
      ensures trace == old(trace) + [Seen(node, now, KeysOf(fs))]
      ensures forall key :: key in trace[|trace| - 1].keys <==> Mentions(fs, key)
    {
      ghost var b, was := Now(), trace;
      said := TouchFindings(node, fs, now, cfg);
      Grace(node, fs, now);
      trace := trace + [Seen(node, now, KeysOf(fs))];
      ObserveStep(b, was, node, fs, now, cfg);
      ObserveTells(b, node, fs, now, cfg);
      KeysMentioned(fs);
    }

    /** What the diagnosis does not mention starts its grace. */
    method Grace(node: string, fs: seq<Finding>, now: real)
      modifies this`active
      ensures active == Graced(old(active), node, KeysOf(fs), now)
    {
      var keys := set i | 0 <= i < |fs| && Counting(fs[i]) :: fs[i].key;
      active := map k | k in active ::
        if k.0 == node && k.1 !in keys && active[k].absentSince.None?
        then active[k].(absentSince := Some(now)) else active[k];
    }

    method Return(node: string, now: real, cfg: Config) returns (messages: seq<Message>)
      requires forall n :: SwapsOk(offline, swaps, n)
      modifies this`nodeSeen, this`offline, this`swaps
      ensures forall n :: SwapsOk(offline, swaps, n)
      ensures offline == old(offline) - {node} && nodeSeen == old(nodeSeen)[node := now]
      ensures messages == if node in old(offline) && cfg.offline && cfg.channels && node !in intermittent
                          then [BackOnline(node)] else []
    {
      messages := [];
      nodeSeen := nodeSeen[node := now];
      if node in offline {
        SwapStep(offline, swaps, node);
        offline := offline - {node};
        swaps := Swapped(swaps, node);
        if cfg.offline && cfg.channels && node !in intermittent {
          messages := [BackOnline(node)];
        }
      }
    }

    /** The loop over the findings of a diagnosis. */
    method TouchFindings(node: string, fs: seq<Finding>, now: real, cfg: Config) returns (messages: seq<Message>)
      requires BoardOk(Now())
      modifies this`active, this`lives, this`current
      ensures Now() == TouchedAll(old(Now()), node, fs, now, cfg)
      ensures messages == Spoken(old(Now()), node, fs, now, cfg)
    {
      messages := [];
      ghost var b, done := Now(), [];
      for i := 0 to |fs|
        invariant done == fs[..i] && Now() == TouchedAll(b, node, done, now, cfg)
        invariant messages == Spoken(b, node, done, now, cfg)
      {
        OneMore(fs, i);
        var f := fs[i];
        ghost var next := done + [f];
        assert next[..|done|] == done;
        if f.severity.Some? && !f.expected {
          var key := (node, f.key);
          var (entry, event) := Touch(if key in active then Some(active[key]) else None, f.severity.value, now, cfg);
          if event.Some? {
            messages := messages + [About(key, event.value)];
          }
          ghost var t := Touched(Now(), key, f.severity.value, now, cfg);
          active := active[key := entry];
          lives, current := t.lives, t.current;
        }
        done := next;
      }
      assert done == fs;
    }

    /** The entries' half of a sweep: which were announced and now cleared. */
    method SweepEntries(now: real, announce: bool) returns (resolved: set<Key>)
      requires BoardOk(Now()) && forall k :: AbsenceOk(Now(), trace, k)
      modifies this`active, this`lives
      ensures BoardOk(Now()) && forall k :: AbsenceOk(Now(), trace, k)
      ensures Now() == Swept(old(Now()), nodeSeen, now, announce)
      ensures resolved == ResolvedKeys(old(Now()), nodeSeen, now)
    {
      ghost var b := Now();
      SweepStep(b, nodeSeen, now, announce, trace);
      resolved := set k | k in active && active[k].sent &&
                          SweepOne(active[k], LastHeard(nodeSeen, k.0, now), now) == Cleared;
      active := map k | k in active && SweepOne(active[k], LastHeard(nodeSeen, k.0, now), now) == Stays :: active[k];
      lives := Swept(b, nodeSeen, now, announce).lives;
      assert Now() == Swept(b, nodeSeen, now, announce);
    }

    /** The nodes' half of a sweep: which have just gone quiet. */
    method SweepNodes(now: real) returns (gone: set<string>)
      requires forall n :: SwapsOk(offline, swaps, n)
      modifies this`offline, this`swaps
      ensures forall n :: SwapsOk(offline, swaps, n)
      ensures gone == set n | n in nodeSeen && now - nodeSeen[n] > 180.0 && n !in old(offline)
      ensures offline == old(offline) + gone
    {
      gone := set n | n in nodeSeen && now - nodeSeen[n] > OFFLINE_AFTER_S && n !in offline;
      SwapAll(offline, swaps, gone);
      offline := offline + gone;
      swaps := SwappedAll(swaps, gone);
    }

    /** Resolutions, silent nodes, and entries whose node vanished. */
    method Sweep(now: real, cfg: Config, clock: real) returns (messages: seq<Message>)
      requires Valid() && outbox.Valid() && outbox.last <= clock
      modifies this, outbox
      ensures Valid() && outbox.Valid() && outbox.last <= clock
      ensures Now() == Swept(old(Now()), nodeSeen, now, cfg.channels && cfg.resolved)
      ensures nodeSeen == old(nodeSeen) && trace == old(trace) && intermittent == old(intermittent)
      ensures offline == old(offline) + set n | n in nodeSeen && now - nodeSeen[n] > 180.0
      ensures SaysOnce(messages, ResolvedKeys(old(Now()), nodeSeen, now), offline - old(offline), intermittent, cfg)
      ensures outbox.offered == old(outbox.offered) + |messages|
      // An entry goes when its node has been silent for fifteen minutes or it has been
      // absent for two; resolved are those absent so long that were announced.
      ensures forall k :: k in active <==>
                k in old(active) && !Silent(nodeSeen, k.0, now) && !AbsentLong(old(active)[k], now)
      ensures forall k :: k in active ==> active[k] == old(active)[k]
      ensures forall k :: About(k, Resolved) in messages <==>
                cfg.channels && cfg.resolved && k in old(active) && old(active)[k].sent &&
                !Silent(nodeSeen, k.0, now) && AbsentLong(old(active)[k], now)
    {
      var resolved := SweepEntries(now, cfg.channels && cfg.resolved);
      var gone := SweepNodes(now);
      messages := SweepMessages(resolved, gone, intermittent, cfg);
      Send(messages, clock);
    }

    /** Forget one key without a word. */
    method Drop(node: string, key: string)
      requires Valid()
      modifies this`active
      ensures Valid() && active == old(active) - {(node, key)}
    {
      FewerEntries(Now(), trace, {(node, key)});
      active := active - {(node, key)};
    }

    method ForgetNode(node: string)
      requires Valid()
      modifies this`active, this`nodeSeen, this`offline, this`intermittent, this`swaps
      ensures Valid() && node !in nodeSeen && node !in offline && node !in intermittent && node !in swaps
      ensures forall k :: k in active <==> k in old(active) && k.0 != node
      ensures forall k :: k in active ==> active[k] == old(active)[k]
      ensures nodeSeen == old(nodeSeen) - {node} && offline == old(offline) - {node}
      ensures intermittent == old(intermittent) - {node}
    {
      var gone := set k | k in active && k.0 == node;
      FewerEntries(Now(), trace, gone);
      active := active - gone;
      nodeSeen, offline, intermittent := nodeSeen - {node}, offline - {node}, intermittent - {node};
      ghost var was := swaps;
      swaps := swaps - {node};
      forall n ensures SwapsOk(offline, swaps, n) {
        assert SwapsOk(old(offline), was, n);
      }
    }

    method SetIntermittent(node: string, flag: bool)
      requires Valid()
      modifies this`intermittent
      ensures Valid() && intermittent == if flag then old(intermittent) + {node} else old(intermittent) - {node}
    {
      intermittent := if flag then intermittent + {node} else intermittent - {node};
    }
  }

  lemma FewerEntries(b: Board, trace: seq<Seen>, gone: set<Key>)
    requires BoardOk(b) && forall k :: AbsenceOk(b, trace, k)
    ensures var after := b.(active := b.active - gone);
            BoardOk(after) && forall k :: AbsenceOk(after, trace, k)
  {
    var after := b.(active := b.active - gone);
    forall k ensures EntryOk(after, k) && AbsenceOk(after, trace, k) {
      assert EntryOk(b, k) && AbsenceOk(b, trace, k);
    }
  }

  ghost function SwapsOf(swaps: map<string, seq<bool>>, n: string): seq<bool> {
    if n in swaps then swaps[n] else []
  }

  /** One more transition of a node: the other of the two. */
  ghost function Swapped(swaps: map<string, seq<bool>>, n: string): map<string, seq<bool>> {
    swaps[n := SwapsOf(swaps, n) + [|SwapsOf(swaps, n)| % 2 == 0]]
  }

  ghost function SwappedAll(swaps: map<string, seq<bool>>, ns: set<string>): map<string, seq<bool>> {
    map n | n in swaps.Keys + ns ::
      if n in ns then SwapsOf(swaps, n) + [true] else SwapsOf(swaps, n)
  }

  lemma SwapStep(offline: set<string>, swaps: map<string, seq<bool>>, node: string)
    requires node in offline && forall n :: SwapsOk(offline, swaps, n)
    ensures forall n :: SwapsOk(offline - {node}, Swapped(swaps, node), n)
  {
    forall n ensures SwapsOk(offline - {node}, Swapped(swaps, node), n) {
      assert SwapsOk(offline, swaps, n);
    }
  }

  lemma SwapAll(offline: set<string>, swaps: map<string, seq<bool>>, gone: set<string>)
    requires gone !! offline && forall n :: SwapsOk(offline, swaps, n)
    ensures forall n :: SwapsOk(offline + gone, SwappedAll(swaps, gone), n)
  {
    forall n ensures SwapsOk(offline + gone, SwappedAll(swaps, gone), n) {
      assert SwapsOk(offline, swaps, n);
    }
  }
}
