/** Python's `sorted` and `list.sort`: a stable sort, for any order. */
module Sorting {
  import opened Prelude

  /** `le(x, y)`: x may stand before y.  Equals keep the order they came in. */
  function Insert<T>(x: T, s: seq<T>, le: (T, T) -> bool): (r: seq<T>)
    ensures |r| == |s| + 1
  {
    if s == [] then [x]
    else if le(s[0], x) then [s[0]] + Insert(x, s[1..], le)
    else [x] + s
  }

  function Sort<T>(s: seq<T>, le: (T, T) -> bool): (r: seq<T>)
    ensures |r| == |s|
  {
    if s == [] then [] else Insert(s[|s| - 1], Sort(s[..|s| - 1], le), le)
  }

  // ------------------------------------------------------- nothing is lost

  lemma BagOfTwo<T>(a: seq<T>, b: seq<T>)
    ensures multiset(a + b) == multiset(a) + multiset(b)
  {
  }

  lemma BagLast<T>(s: seq<T>)
    requires s != []
    ensures multiset(s) == multiset(s[..|s| - 1]) + multiset{s[|s| - 1]}
  {
    BagOfTwo(s[..|s| - 1], [s[|s| - 1]]);
    assert s == s[..|s| - 1] + [s[|s| - 1]];
  }

  lemma BagFirst<T>(x: T, s: seq<T>)
    ensures multiset([x] + s) == multiset{x} + multiset(s)
  {
    BagOfTwo([x], s);
  }

  lemma {:induction false} InsertBag<T>(x: T, s: seq<T>, le: (T, T) -> bool)
    ensures multiset(Insert(x, s, le)) == multiset(s) + multiset{x}
  {
    if s == [] {
    } else if le(s[0], x) {
      InsertBag(x, s[1..], le);
      BagFirst(s[0], Insert(x, s[1..], le));
      BagFirst(s[0], s[1..]);
      assert s == [s[0]] + s[1..];
    } else {
      BagFirst(x, s);
    }
  }

  lemma {:induction false} SortBag<T>(s: seq<T>, le: (T, T) -> bool)
    ensures multiset(Sort(s, le)) == multiset(s)
  {
    if s == [] {
    } else {
      SortBag(s[..|s| - 1], le);
      InsertBag(s[|s| - 1], Sort(s[..|s| - 1], le), le);
      BagLast(s);
    }
  }

  lemma SortMembers<T>(s: seq<T>, le: (T, T) -> bool)
    ensures forall x :: x in Sort(s, le) <==> x in s
  {
    SortBag(s, le);
    forall x ensures x in Sort(s, le) <==> x in s {
      assert x in multiset(Sort(s, le)) <==> x in multiset(s);
    }
  }

  // ------------------------------------------------------- and it is in order

  /** Any two may stand one way or the other, and the order is transitive. */
  ghost predicate TotalOrder<T(!new)>(le: (T, T) -> bool) {
    && (forall x, y :: le(x, y) || le(y, x))
    && (forall x, y, z :: le(x, y) && le(y, z) ==> le(x, z))
  }

  predicate Heads<T(==)>(x: T, s: seq<T>, le: (T, T) -> bool) {
    forall y :: y in s ==> le(x, y)
  }

  predicate Ordered<T(==)>(s: seq<T>, le: (T, T) -> bool) {
    s == [] || (Heads(s[0], s[1..], le) && Ordered(s[1..], le))
  }

  lemma {:induction false} InsertMembers<T>(x: T, s: seq<T>, le: (T, T) -> bool)
    ensures forall y :: y in Insert(x, s, le) <==> y == x || y in s
  {
    if s == [] {
    } else {
      InsertMembers(x, s[1..], le);
      assert s == [s[0]] + s[1..];
    }
  }

  lemma {:induction false} InsertOrdered<T(!new)>(x: T, s: seq<T>, le: (T, T) -> bool)
    requires TotalOrder(le) && Ordered(s, le)
    ensures Ordered(Insert(x, s, le), le)
  {
    if s == [] {
    } else if le(s[0], x) {
      InsertOrdered(x, s[1..], le);
      InsertMembers(x, s[1..], le);
      assert Heads(s[0], Insert(x, s[1..], le), le);
    } else {
      assert s == [s[0]] + s[1..];
      assert Heads(x, s, le);
    }
  }

  lemma {:induction false} SortOrdered<T(!new)>(s: seq<T>, le: (T, T) -> bool)
    requires TotalOrder(le)
    ensures Ordered(Sort(s, le), le)
  {
    if s == [] {
    } else {
      SortOrdered(s[..|s| - 1], le);
      InsertOrdered(s[|s| - 1], Sort(s[..|s| - 1], le), le);
    }
  }

  lemma {:induction false} OrderedPair<T>(s: seq<T>, le: (T, T) -> bool, i: nat, j: nat)
    requires Ordered(s, le) && i < j < |s|
    ensures le(s[i], s[j])
  {
    if i == 0 {
      assert s[j] == s[1..][j - 1];
    } else {
      OrderedPair(s[1..], le, i - 1, j - 1);
    }
  }

  predicate Closes<T(==)>(s: seq<T>, x: T, le: (T, T) -> bool) {
    forall y :: y in s ==> le(y, x)
  }

  lemma {:induction false} OrderedLast<T>(s: seq<T>, le: (T, T) -> bool)
    requires s != [] && Ordered(s, le)
    ensures Ordered(s[..|s| - 1], le) && Closes(s[..|s| - 1], s[|s| - 1], le)
  {
    var init, last := s[..|s| - 1], s[|s| - 1];
    if |s| == 1 {
    } else {
      OrderedLast(s[1..], le);
      assert s[1..][..|s| - 2] == init[1..];
      assert init == [s[0]] + init[1..];
      assert last in s[1..] && forall y :: y in init[1..] ==> y in s[1..];
    }
  }

  // -------------------------------------------------------- and it is stable

  lemma {:induction false} FilterFirst<T>(x: T, s: seq<T>, keep: T -> bool)
    ensures Filter([x] + s, keep) == (if keep(x) then [x] else []) + Filter(s, keep)
  {
    var all := [x] + s;
    if s == [] {
      assert all[..0] == [];
    } else {
      FilterFirst(x, s[..|s| - 1], keep);
      assert all[..|all| - 1] == [x] + s[..|s| - 1] && all[|all| - 1] == s[|s| - 1];
    }
  }

  lemma {:induction false} FilterNone<T>(s: seq<T>, keep: T -> bool)
    requires forall x :: x in s ==> !keep(x)
    ensures Filter(s, keep) == []
  {
    if s == [] {
    } else {
      FilterNone(s[..|s| - 1], keep);
    }
  }

  /** Any two that satisfy the test may stand either way. */
  ghost predicate Alike<T(!new)>(keep: T -> bool, le: (T, T) -> bool) {
    forall x, y :: keep(x) && keep(y) ==> le(x, y)
  }

  lemma {:induction false} InsertStable<T(!new)>(x: T, s: seq<T>, le: (T, T) -> bool, keep: T -> bool)
    requires TotalOrder(le) && Ordered(s, le) && Alike(keep, le)
    ensures Filter(Insert(x, s, le), keep) == Filter(s, keep) + if keep(x) then [x] else []
  {
    if s == [] {
      assert [x][..0] == [];
    } else if le(s[0], x) {
      InsertStable(x, s[1..], le, keep);
      FilterFirst(s[0], Insert(x, s[1..], le), keep);
      FilterFirst(s[0], s[1..], keep);
      assert s == [s[0]] + s[1..];
    } else {
      FilterFirst(x, s, keep);
      if keep(x) {
        forall y | y in s ensures !keep(y) {
          assert s == [s[0]] + s[1..] && le(y, y);
          assert le(s[0], y);
        }
        FilterNone(s, keep);
      }
    }
  }

  /** Those that may stand either way keep the order they came in. */
  lemma {:induction false} SortStable<T(!new)>(s: seq<T>, le: (T, T) -> bool, keep: T -> bool)
    requires TotalOrder(le) && Alike(keep, le)
    ensures Filter(Sort(s, le), keep) == Filter(s, keep)
  {
    if s == [] {
    } else {
      var init := s[..|s| - 1];
      SortStable(init, le, keep);
      SortOrdered(init, le);
      InsertStable(s[|s| - 1], Sort(init, le), le, keep);
    }
  }
}
