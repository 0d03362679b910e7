/** Report intake: the explicit-stack walk that cleans one section of an agent's
    report in place (`_scrub`), proved against a recursive description of the
    JSON tree it walks.

    The heap side is the class `Container` (a Python dict or list).  The ghost
    datatype `Tree` is the shape a caller passes: it names the containers, so
    "the same shape, cleaned" can be said as an equation between trees. */
module Scrub {
  import opened Prelude

  const MAX_DEPTH: nat := 24
  const INT_BOUND: int := 0x8000_0000_0000_0000

  /** Python text: code points, lone surrogates included. */
  type CodePoint = n: int | 0 <= n < 0x11_0000
  type Text = seq<CodePoint>

  predicate Surrogate(c: CodePoint) {
    0xD800 <= c <= 0xDFFF
  }

  /** What `str.encode("utf-8")` accepts. */
  predicate Encodable(t: Text) {
    forall i :: 0 <= i < |t| ==> !Surrogate(t[i])
  }

  /** A question mark at each surrogate, the text's own code points elsewhere. */
  ghost predicate Repaired(t: Text, r: Text) {
    |r| == |t| && forall i :: 0 <= i < |t| ==> r[i] == if 0xD800 <= t[i] <= 0xDFFF then '?' as int else t[i]
  }

  /** `encode("utf-8", "replace").decode("utf-8")`. */
  function Repair(t: Text): (r: Text)
    ensures Repaired(t, r) && Encodable(r)
    ensures r == t <==> Encodable(t)
  {
    seq(|t|, i requires 0 <= i < |t| => if Surrogate(t[i]) then 0x3F else t[i])
  }

  datatype Scalar = Null | Bool(b: bool) | Int(n: int) | Float(x: real) | Str(s: Text)

  datatype Value = Atom(a: Scalar) | Ref(box: Container)

  datatype Shape = Dict(keys: seq<Text>) | List

  /** A dict or a list: its keys are fixed, its values are rewritten in place. */
  class Container {
    const shape: Shape
    var items: seq<Value>

    constructor (shape: Shape, items: seq<Value>)
      ensures this.shape == shape && this.items == items
    {
      this.shape, this.items := shape, items;
    }
  }

  // ------------------------------------------------------------ specification

  predicate Oversized(n: int) {
    n > INT_BOUND || -n > INT_BOUND
  }

  /** A leaf the walk has nothing to do about: text that encodes, an integer within the
      guard.  (The guard lets 2 to the 63 through, one more than an SQLite INTEGER holds.) */
  predicate Storable(a: Scalar) {
    match a
    case Int(n) => !Oversized(n)
    case Str(s) => Encodable(s)
    case _ => true
  }

  function Fix(a: Scalar): Scalar {
    match a
    case Int(n) => if Oversized(n) then Null else a
    case Str(s) => Str(Repair(s))
    case _ => a
  }

  function FixValue(v: Value): Value {
    match v
    case Atom(a) => Atom(Fix(a))
    case Ref(_) => v
  }

  function FixAll(vs: seq<Value>): seq<Value> {
    seq(|vs|, i requires 0 <= i < |vs| => FixValue(vs[i]))
  }

  /** What the walk makes of one item: an integer beyond 2 to the 63, either way, becomes
      null; a text is repaired; everything else, containers included, stays. */
  ghost predicate Mended(was: Value, now: Value) {
    match was
    case Atom(Int(n)) =>
      now == if -9_223_372_036_854_775_808 <= n <= 9_223_372_036_854_775_808 then was else Atom(Null)
    case Atom(Str(t)) => now.Atom? && now.a.Str? && Repaired(t, now.a.s)
    case _ => now == was
  }

  ghost predicate AllMended(was: seq<Value>, now: seq<Value>) {
    |now| == |was| && forall i :: 0 <= i < |was| ==> Mended(was[i], now[i])
  }

  lemma FixMends(vs: seq<Value>)
    ensures AllMended(vs, FixAll(vs))
  {
    forall i | 0 <= i < |vs| ensures Mended(vs[i], FixAll(vs)[i]) {
      match vs[i]
      case Atom(Str(t)) => assert Repaired(t, Repair(t));
      case _ =>
    }
  }

  datatype Tree = Leaf(a: Scalar) | Node(box: Container, kids: seq<Tree>)

  type Heap = map<Container, seq<Value>>

  ghost function Root(t: Tree): Value {
    match t
    case Leaf(a) => Atom(a)
    case Node(b, _) => Ref(b)
  }

  ghost function Roots(ts: seq<Tree>): seq<Value> {
    seq(|ts|, i requires 0 <= i < |ts| => Root(ts[i]))
  }

  ghost function Cells(ts: seq<Tree>): set<Container> {
    if ts == [] then {} else
    (match ts[0]
     case Leaf(_) => {}
     case Node(b, ks) => {b} + Cells(ks))
    + Cells(ts[1..])
  }

  /** No container is reachable twice: what a JSON parser builds. */
  ghost predicate Distinct(ts: seq<Tree>) {
    ts == [] ||
    (Cells([ts[0]]) !! Cells(ts[1..]) && Distinct(ts[1..]) &&
     (ts[0].Node? ==> ts[0].box !in Cells(ts[0].kids) && Distinct(ts[0].kids)))
  }

  /** The heap contains exactly these trees. */
  ghost predicate Holds(h: Heap, ts: seq<Tree>) {
    ts == [] ||
    (Holds(h, ts[1..]) &&
     (ts[0].Node? ==> ts[0].box in h && h[ts[0].box] == Roots(ts[0].kids) && Holds(h, ts[0].kids)))
  }

  /** Deepest container nesting: a scalar is 0, an empty dict or list is 1. */
  ghost function Depth(ts: seq<Tree>): nat {
    if ts == [] then 0 else
    Max(match ts[0]
        case Leaf(_) => 0
        case Node(_, ks) => 1 + Depth(ks),
        Depth(ts[1..]))
  }

  ghost function Clean(ts: seq<Tree>): seq<Tree> {
    if ts == [] then [] else
    [match ts[0]
     case Leaf(a) => Leaf(Fix(a))
     case Node(b, ks) => Node(b, Clean(ks))]
    + Clean(ts[1..])
  }

  /** The same containers in the same places, every leaf mended. */
  ghost predicate TreesMended(was: seq<Tree>, now: seq<Tree>) {
    |now| == |was| &&
    (was == [] ||
     (TreesMended(was[1..], now[1..]) &&
      match was[0]
      case Leaf(a) => now[0].Leaf? && Mended(Atom(a), Atom(now[0].a))
      case Node(b, ks) => now[0].Node? && now[0].box == b && TreesMended(ks, now[0].kids)))
  }

  ghost predicate LeavesStorable(ts: seq<Tree>) {
    ts == [] ||
    (LeavesStorable(ts[1..]) &&
     match ts[0]
     case Leaf(a) => Storable(a)
     case Node(_, ks) => LeavesStorable(ks))
  }

  /** Every key of every dict encodes; the walk never looks. */
  ghost predicate KeysEncode(ts: seq<Tree>) {
    ts == [] ||
    (KeysEncode(ts[1..]) &&
     match ts[0]
     case Leaf(_) => true
     case Node(b, ks) => KeysEncode(ks) && ShapeEncodes(b.shape))
  }

  predicate ShapeEncodes(s: Shape) {
    s.Dict? ==> forall i :: 0 <= i < |s.keys| ==> Encodable(s.keys[i])
  }

  /** What the database and the browser can both hold. */
  ghost predicate AllStorable(ts: seq<Tree>) {
    LeavesStorable(ts) && KeysEncode(ts)
  }

  /** The heap restricted to some containers, as a value. */
  ghost function Snapshot(cs: set<Container>): Heap
    reads cs
  {
    map c | c in cs :: c.items
  }

  // ---------------------------------------------------- meaning of the target

  lemma {:induction false} CleanMends(ts: seq<Tree>)
    ensures TreesMended(ts, Clean(ts))
  {
    if ts == [] {
    } else {
      CleanMends(ts[1..]);
      if ts[0].Node? {
        CleanMends(ts[0].kids);
      } else {
        FixMends([Atom(ts[0].a)]);
        assert FixAll([Atom(ts[0].a)])[0] == Atom(Fix(ts[0].a));
      }
      assert Clean(ts)[1..] == Clean(ts[1..]);
    }
  }

  /** The containers, and so their keys, are the same in the same places. */
  lemma {:induction false} CleanKeeps(ts: seq<Tree>)
    ensures Cells(Clean(ts)) == Cells(ts) && Depth(Clean(ts)) == Depth(ts)
    ensures KeysEncode(Clean(ts)) <==> KeysEncode(ts)
  {
    if ts == [] {
    } else {
      CleanKeeps(ts[1..]);
      if ts[0].Node? {
        CleanKeeps(ts[0].kids);
      }
      assert Clean(ts)[1..] == Clean(ts[1..]);
    }
  }

  lemma {:induction false} CleanStorable(ts: seq<Tree>)
    ensures LeavesStorable(Clean(ts))
    ensures Clean(ts) == ts <==> LeavesStorable(ts)
  {
    if ts == [] {
    } else {
      CleanStorable(ts[1..]);
      if ts[0].Node? {
        CleanStorable(ts[0].kids);
      }
      var c := Clean(ts);
      assert c[1..] == Clean(ts[1..]);
      assert c == [c[0]] + c[1..] && ts == [ts[0]] + ts[1..];
    }
  }

  /** Every leaf of a cleaned tree is mended and so storable, the containers (and so their
      keys) are the same in the same places, and cleaning changes nothing exactly when no
      leaf needed it. */
  lemma CleanMeaning(ts: seq<Tree>)
    ensures TreesMended(ts, Clean(ts)) && LeavesStorable(Clean(ts))
    ensures Cells(Clean(ts)) == Cells(ts) && Depth(Clean(ts)) == Depth(ts)
    ensures KeysEncode(Clean(ts)) <==> KeysEncode(ts)
    ensures Clean(ts) == ts <==> LeavesStorable(ts)
  {
    CleanMends(ts);
    CleanKeeps(ts);
    CleanStorable(ts);
  }

  lemma CleanIdempotent(ts: seq<Tree>)
    ensures Clean(Clean(ts)) == Clean(ts)
  {
    CleanMeaning(ts);
    CleanMeaning(Clean(ts));
  }

  lemma {:induction false} CleanRoots(ts: seq<Tree>)
    ensures |Clean(ts)| == |ts| && Roots(Clean(ts)) == FixAll(Roots(ts))
  {
    if ts == [] {
    } else {
      CleanRoots(ts[1..]);
      assert Clean(ts)[1..] == Clean(ts[1..]);
      forall i | 0 <= i < |ts| ensures Roots(Clean(ts))[i] == FixAll(Roots(ts))[i] {
        if i > 0 {
          assert Roots(Clean(ts[1..]))[i - 1] == FixAll(Roots(ts[1..]))[i - 1];
          assert Clean(ts)[i] == Clean(ts[1..])[i - 1];
        }
      }
    }
  }

  /** Fixing every container's items turns the trees into their cleaned form. */
  lemma {:induction false} FixedHeapHoldsClean(h: Heap, fixed: Heap, ts: seq<Tree>)
    requires Holds(h, ts)
    requires forall c :: c in Cells(ts) && c in h ==> c in fixed && fixed[c] == FixAll(h[c])
    ensures Holds(fixed, Clean(ts))
  {
    if ts == [] {
    } else {
      FixedHeapHoldsClean(h, fixed, ts[1..]);
      assert Clean(ts)[1..] == Clean(ts[1..]);
      if ts[0].Node? {
        FixedHeapHoldsClean(h, fixed, ts[0].kids);
        CleanRoots(ts[0].kids);
      }
    }
  }

  // ------------------------------------------------------ forests on the stack

  lemma {:induction false} Concat(a: seq<Tree>, b: seq<Tree>, h: Heap)
    ensures Cells(a + b) == Cells(a) + Cells(b)
    ensures Distinct(a + b) <==> Distinct(a) && Distinct(b) && Cells(a) !! Cells(b)
    ensures Holds(h, a + b) <==> Holds(h, a) && Holds(h, b)
  {
    if a == [] {
      assert a + b == b;
    } else {
      assert (a + b)[1..] == a[1..] + b;
      Concat(a[1..], b, h);
      assert Cells([a[0]]) == match a[0] case Leaf(_) => {} case Node(x, ks) => {x} + Cells(ks) by {
        assert [a[0]][1..] == [];
      }
      assert Cells(a) == Cells([a[0]]) + Cells(a[1..]);
    }
  }

  /** Popping a container and pushing its children. */
  lemma Open(rest: seq<Tree>, t: Tree, h: Heap)
    requires t.Node? && Distinct(rest + [t]) && Holds(h, rest + [t])
    ensures Distinct(rest + t.kids) && Holds(h, rest + t.kids)
    ensures t.box in h && h[t.box] == Roots(t.kids)
    ensures t.box !in Cells(rest + t.kids)
    ensures Cells(rest + [t]) == Cells(rest + t.kids) + {t.box}
  {
    Concat(rest, [t], h);
    Concat(rest, t.kids, h);
    assert [t][1..] == [];
  }

  lemma {:induction false} DepthBound(ts: seq<Tree>, n: nat)
    ensures Depth(ts) > n <==> exists i :: 0 <= i < |ts| && Depth([ts[i]]) > n
  {
    if ts == [] {
    } else {
      DepthBound(ts[1..], n);
      assert [ts[0]][1..] == [];
      if i :| 0 <= i < |ts[1..]| && Depth([ts[1..][i]]) > n {
        assert ts[i + 1] == ts[1..][i];
      }
      if i :| 0 <= i < |ts| && Depth([ts[i]]) > n {
        if i > 0 {
          assert ts[i] == ts[1..][i - 1];
        }
      }
    }
  }

  /** The children that are containers, in order: what one visit pushes. */
  ghost function Containers(ts: seq<Tree>): (cs: seq<Tree>)
    ensures forall i :: 0 <= i < |cs| ==> cs[i].Node?
  {
    if ts == [] then [] else
    Containers(ts[..|ts| - 1]) + if ts[|ts| - 1].Node? then [ts[|ts| - 1]] else []
  }

  lemma {:induction false} ContainersKeep(ts: seq<Tree>, h: Heap, n: nat)
    ensures Cells(Containers(ts)) == Cells(ts)
    ensures Distinct(ts) ==> Distinct(Containers(ts))
    ensures Holds(h, ts) ==> Holds(h, Containers(ts))
    ensures Depth(ts) > n <==> Depth(Containers(ts)) > n
  {
    if ts == [] {
    } else {
      var init, last := ts[..|ts| - 1], ts[|ts| - 1];
      assert ts == init + [last];
      assert [last][1..] == [];
      ContainersKeep(init, h, n);
      Concat(init, [last], h);
      Concat(Containers(init), [last], h);
      DepthAppend(init, last, n);
      DepthAppend(Containers(init), last, n);
      assert Containers(init) + [] == Containers(init);
    }
  }

  lemma DepthAppend(ts: seq<Tree>, t: Tree, n: nat)
    ensures Depth(ts + [t]) > n <==> Depth(ts) > n || Depth([t]) > n
  {
    var us := ts + [t];
    DepthBound(us, n);
    DepthBound(ts, n);
    if i :| 0 <= i < |ts| && Depth([ts[i]]) > n {
      assert us[i] == ts[i];
    }
    assert us[|ts|] == t;
  }

  // ------------------------------------------------------------------ the walk

  type Stack = seq<(Container, nat)>

  /** Some entry, at its recorded depth, reaches past the bound. */
  ghost predicate TooDeep(stack: Stack, trees: seq<Tree>)
    requires |stack| == |trees|
  {
    exists i :: 0 <= i < |trees| && stack[i].1 + Depth([trees[i]]) > MAX_DEPTH + 1
  }

  /** Tree for entry, in order. */
  ghost predicate Names(stack: Stack, trees: seq<Tree>) {
    |stack| == |trees| && forall i :: 0 <= i < |trees| ==> trees[i].Node? && trees[i].box == stack[i].0
  }

  /** The stack holds exactly the containers still to visit: `trees` names what is
      below each entry, and the whole is too deep exactly when an entry is. */
  ghost predicate Walking(h: Heap, deep: bool, stack: Stack, trees: seq<Tree>) {
    && Names(stack, trees)
    && Distinct(trees) && Holds(h, trees)
    && (TooDeep(stack, trees) <==> deep)
  }

  lemma TooDeepConcat(s: Stack, ts: seq<Tree>, r: Stack, us: seq<Tree>)
    requires |s| == |ts| && |r| == |us|
    ensures TooDeep(s + r, ts + us) <==> TooDeep(s, ts) || TooDeep(r, us)
  {
    if i :| 0 <= i < |ts| && s[i].1 + Depth([ts[i]]) > MAX_DEPTH + 1 {
      assert (s + r)[i] == s[i] && (ts + us)[i] == ts[i];
    }
    if i :| 0 <= i < |us| && r[i].1 + Depth([us[i]]) > MAX_DEPTH + 1 {
      assert (s + r)[|s| + i] == r[i] && (ts + us)[|s| + i] == us[i];
    }
  }

  lemma TopTooDeep(h: Heap, deep: bool, stack: Stack, trees: seq<Tree>)
    requires Walking(h, deep, stack, trees) && stack != [] && stack[|stack| - 1].1 > MAX_DEPTH
    ensures deep
  {
    var k := |trees| - 1;
    assert [trees[k]][1..] == [];
    assert stack[k].1 + Depth([trees[k]]) > MAX_DEPTH + 1;
  }

  lemma TopBox(h: Heap, deep: bool, stack: Stack, trees: seq<Tree>)
    requires Walking(h, deep, stack, trees) && stack != []
    ensures var k := |trees| - 1;
            trees[k].Node? && stack[k].0 == trees[k].box && stack[k].0 in Cells(trees) &&
            stack[k].0 in h && h[stack[k].0] == Roots(trees[k].kids)
  {
    var k := |trees| - 1;
    assert trees == trees[..k] + [trees[k]];
    Open(trees[..k], trees[k], h);
  }

  /** The containers among some children, at a depth: what a visit pushes. */
  ghost predicate Pushes(found: Stack, kids: seq<Tree>, depth: nat) {
    |found| == |Containers(kids)| && forall j :: 0 <= j < |found| ==> found[j] == (Containers(kids)[j].box, depth)
  }

  /** Visiting a container within the bound trades it for its children one deeper. */
  lemma OneDeeper(c: Container, d: nat, t: Tree, found: Stack)
    requires t.Node? && d <= MAX_DEPTH && Pushes(found, t.kids, d + 1)
    ensures TooDeep([(c, d)], [t]) <==> TooDeep(found, Containers(t.kids))
  {
    var sub := Containers(t.kids);
    assert [t][1..] == [];
    ContainersKeep(t.kids, map[], MAX_DEPTH - d);
    DepthBound(sub, MAX_DEPTH - d);
    if d + Depth([t]) > MAX_DEPTH + 1 {
      assert [(c, d)][0].1 + Depth([[t][0]]) > MAX_DEPTH + 1;
    }
    if i :| 0 <= i < |sub| && Depth([sub[i]]) > MAX_DEPTH - d {
      assert found[i].1 + Depth([sub[i]]) > MAX_DEPTH + 1;
    }
  }

  lemma VisitCells(rest: seq<Tree>, top: Tree, h: Heap)
    requires top.Node? && Distinct(rest + [top]) && Holds(h, rest + [top])
    ensures var after := rest + Containers(top.kids);
            Distinct(after) && Holds(h, after) &&
            top.box !in Cells(after) && Cells(rest + [top]) == Cells(after) + {top.box}
  {
    Open(rest, top, h);
    PushContainers(rest, top.kids, h);
  }

  lemma VisitDepth(below: Stack, rest: seq<Tree>, c: Container, d: nat, top: Tree, found: Stack)
    requires |below| == |rest| && top.Node? && d <= MAX_DEPTH && Pushes(found, top.kids, d + 1)
    ensures TooDeep(below + [(c, d)], rest + [top]) <==> TooDeep(below + found, rest + Containers(top.kids))
  {
    TooDeepConcat(below, rest, [(c, d)], [top]);
    TooDeepConcat(below, rest, found, Containers(top.kids));
    OneDeeper(c, d, top, found);
  }

  lemma NamesPush(below: Stack, rest: seq<Tree>, kids: seq<Tree>, d: nat, found: Stack)
    requires Names(below, rest) && Pushes(found, kids, d)
    ensures Names(below + found, rest + Containers(kids))
  {
  }

  lemma VisitContainer(h: Heap, deep: bool, stack: Stack, trees: seq<Tree>, found: Stack)
    requires Walking(h, deep, stack, trees) && stack != [] && stack[|stack| - 1].1 <= MAX_DEPTH
    requires Pushes(found, trees[|trees| - 1].kids, stack[|stack| - 1].1 + 1)
    ensures var k := |trees| - 1;
            var after := trees[..k] + Containers(trees[k].kids);
            Walking(h, deep, stack[..k] + found, after) &&
            trees[k].box !in Cells(after) && Cells(trees) == Cells(after) + {trees[k].box}
  {
    var k := |trees| - 1;
    var rest, top := trees[..k], trees[k];
    assert trees == rest + [top] && stack == stack[..k] + [(stack[k].0, stack[k].1)];
    VisitCells(rest, top, h);
    VisitDepth(stack[..k], rest, stack[k].0, stack[k].1, top, found);
    NamesPush(stack[..k], rest, top.kids, stack[k].1 + 1, found);
  }

  lemma PushContainers(rest: seq<Tree>, kids: seq<Tree>, h: Heap)
    requires Distinct(rest + kids) && Holds(h, rest + kids)
    ensures Distinct(rest + Containers(kids)) && Holds(h, rest + Containers(kids))
    ensures Cells(rest + Containers(kids)) == Cells(rest + kids)
  {
    ContainersKeep(kids, h, 0);
    Concat(rest, kids, h);
    Concat(rest, Containers(kids), h);
  }

  /** One visit: rewrite the leaves of `c` in place, return the containers in it. */
  method ScanItems(c: Container, depth: nat, ghost kids: seq<Tree>)
    returns (found: Stack)
    requires c.items == Roots(kids)
    modifies c
    ensures c.items == FixAll(old(c.items)) && AllMended(old(c.items), c.items)
    ensures Pushes(found, kids, depth + 1)
  {
    found := [];
    var i := 0;
    while i < |c.items|
      invariant 0 <= i <= |c.items| == |kids|
      invariant forall j :: 0 <= j < |kids| ==>
                  c.items[j] == if j < i then FixValue(old(c.items)[j]) else old(c.items)[j]
      invariant Pushes(found, kids[..i], depth + 1)
    {
      var value := c.items[i];
      assert value == Root(kids[i]);
      assert kids[..i + 1][..i] == kids[..i];
      match value {
        case Ref(box) =>
          found := found + [(box, depth + 1)];
        case Atom(a) =>
          match a {
            case Int(n) =>
              if n > INT_BOUND || -n > INT_BOUND {
                c.items := c.items[i := Atom(Null)];
              }
            case Str(s) =>
              if !Encodable(s) {
                c.items := c.items[i := Atom(Str(Repair(s)))];
              }
            case _ =>
          }
      }
      i := i + 1;
    }
    assert kids[..i] == kids;
    FixMends(old(c.items));
  }

  /** Half way: the containers still to visit are as they were, the others are fixed. */
  ghost predicate Halfway(h: Heap, all: set<Container>, live: set<Container>)
    requires all <= h.Keys
    reads all
  {
    live <= all && forall c :: c in all ==> c.items == if c in live then h[c] else FixAll(h[c])
  }

  lemma HalfwayMended(h: Heap, all: set<Container>, live: set<Container>)
    requires all <= h.Keys && Halfway(h, all, live)
    ensures forall c :: c in all && c !in live ==> AllMended(h[c], c.items)
  {
    forall c | c in all && c !in live ensures AllMended(h[c], c.items) {
      FixMends(h[c]);
    }
  }

  /** The body of the loop: the top container is fixed, its containers take its place. */
  method Visit(stack: Stack, ghost trees: seq<Tree>, ghost h: Heap, ghost all: set<Container>, ghost deep: bool)
    returns (next: Stack, ghost after: seq<Tree>)
    requires all <= h.Keys && Walking(h, deep, stack, trees) && Halfway(h, all, Cells(trees))
    requires stack != [] && stack[|stack| - 1].1 <= MAX_DEPTH
    modifies all
    ensures stack[|stack| - 1].0 in Cells(trees) && Cells(after) == Cells(trees) - {stack[|stack| - 1].0}
    ensures Walking(h, deep, next, after) && Halfway(h, all, Cells(after))
  {
    var k := |stack| - 1;
    var (c, depth) := stack[k];
    ghost var live, kids := Cells(trees), trees[k].kids;
    TopBox(h, deep, stack, trees);
    var found := ScanItems(c, depth, kids);
    VisitContainer(h, deep, stack, trees, found);
    next, after := stack[..k] + found, trees[..k] + Containers(kids);
    assert Cells(after) == live - {c};
  }

  /** `_scrub`, from its only call, on a dict: true when the section must be dropped
      as nested too deep.  `t` is the tree the heap holds below `root` at the call. */
  method ScrubWalk(root: Container, ghost t: Tree) returns (rejected: bool)
    requires t.Node? && root == t.box && Distinct([t]) && Holds(Snapshot(Cells([t])), [t])
    modifies Cells([t])
    ensures rejected <==> Depth([t]) > 24
    // Accepted: the heap holds the cleaned tree, container for container.
    ensures !rejected ==> Holds(Snapshot(Cells([t])), Clean([t]))
    // Rejected half way: nothing but cleaning ever happened to a container.
    ensures forall c :: c in Cells([t]) ==>
              c.items == old(c.items) || c.items == FixAll(old(c.items))
    // And what cleaning is, item by item.
    ensures forall c :: c in Cells([t]) ==>
              AllMended(old(c.items), c.items) || (rejected && c.items == old(c.items))
  {
    ghost var all, h, deep := Cells([t]), Snapshot(Cells([t])), Depth([t]) > MAX_DEPTH;
    ghost var trees := [t];
    var stack: Stack := [(root, 1)];
    while stack != []
      invariant Walking(h, deep, stack, trees) && Halfway(h, all, Cells(trees))
      decreases Cells(trees)
    {
      if stack[|stack| - 1].1 > MAX_DEPTH {
        TopTooDeep(h, deep, stack, trees);
        HalfwayMended(h, all, Cells(trees));
        return true;
      }
      stack, trees := Visit(stack, trees, h, all, deep);
    }
    FixedHeapHoldsClean(h, Snapshot(all), [t]);
    HalfwayMended(h, all, {});
    return false;
  }
}
