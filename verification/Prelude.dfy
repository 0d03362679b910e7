/** Shared vocabulary: optional values and the few facts about text that several
    components lean on. */
module Prelude {
  datatype Option<+T> = None | Some(value: T)

  function Digit(d: nat): char
    requires d < 10
  {
    (d as char) + '0'
  }

  /** Python's `str(n)` for a natural number. */
  function Dec(n: nat): (s: string)
    ensures s != [] && forall i :: 0 <= i < |s| ==> '0' <= s[i] <= '9'
    ensures |s| > 1 ==> s[0] != '0'
  {
    if n < 10 then [Digit(n)] else Dec(n / 10) + [Digit(n % 10)]
  }

  /** `int(s)` on text made of ASCII digits. */
  function ParseDec(s: string): nat
    requires forall i :: 0 <= i < |s| ==> '0' <= s[i] <= '9'
  {
    if s == [] then 0 else ParseDec(s[..|s| - 1]) * 10 + (s[|s| - 1] as nat - '0' as nat)
  }

  lemma {:induction false} ParseDecOfDec(n: nat)
    ensures ParseDec(Dec(n)) == n
  {
    if n >= 10 {
      ParseDecOfDec(n / 10);
      assert Dec(n)[..|Dec(n)| - 1] == Dec(n / 10);
    }
  }

  lemma DecInjective(m: nat, n: nat)
    requires Dec(m) == Dec(n)
    ensures m == n
  {
    ParseDecOfDec(m);
    ParseDecOfDec(n);
  }

  /** `str(n)` for any integer. */
  function IntText(n: int): (s: string)
    ensures s != [] && (s[0] == '-' <==> n < 0)
    ensures forall i :: 0 <= i < |s| ==> s[i] == '-' || '0' <= s[i] <= '9'
  {
    if n < 0 then "-" + Dec(-n) else Dec(n)
  }

  /** Decimal digits, without a leading zero, that read as n. */
  ghost predicate IsDecimal(s: string, n: nat) {
    && s != [] && (forall i :: 0 <= i < |s| ==> '0' <= s[i] <= '9')
    && (|s| > 1 ==> s[0] != '0') && ParseDec(s) == n
  }

  lemma IntTextMeaning(n: int)
    ensures n >= 0 ==> IsDecimal(IntText(n), n)
    ensures n < 0 ==> IntText(n)[0] == '-' && IsDecimal(IntText(n)[1..], -n)
  {
    ParseDecOfDec(if n < 0 then -n else n);
    if n < 0 {
      assert IntText(n)[1..] == Dec(-n);
    }
  }

  lemma IntTextInjective(m: int, n: int)
    requires IntText(m) == IntText(n)
    ensures m == n
  {
    if m < 0 {
      assert IntText(m)[1..] == Dec(-m) && IntText(n)[1..] == Dec(-n);
      DecInjective(-m, -n);
    } else {
      DecInjective(m, n);
    }
  }

  /** The prefix a loop has seen, one element later. */
  lemma OneMore<T>(s: seq<T>, i: nat)
    requires i < |s|
    ensures s[..i + 1] == s[..i] + [s[i]]
  {
  }

  /** Those that satisfy a test, in order: Python's `[x for x in s if keep(x)]`. */
  ghost function Filter<T>(s: seq<T>, keep: T -> bool): seq<T> {
    if s == [] then [] else
    Filter(s[..|s| - 1], keep) + if keep(s[|s| - 1]) then [s[|s| - 1]] else []
  }

  /** How grave a severity is; anything unknown ranks with "ok". */
  function Rank(severity: string): nat {
    if severity == "critical" then 3
    else if severity == "warn" then 2
    else if severity == "info" then 1
    else 0
  }

  /** "critical" outranks "warn", that "info", and that anything else, which rank alike. */
  lemma RankOrders(s: string, t: string)
    requires s !in {"critical", "warn", "info"} && t !in {"critical", "warn", "info"}
    ensures Rank("critical") > Rank("warn") > Rank("info") > Rank(s) && Rank(s) == Rank(t)
  {
  }

  function Max(x: int, y: int): (m: int)
    ensures x <= m && y <= m && (m == x || m == y)
  {
    if y > x then y else x
  }

  /** `s.startswith(prefix)`. */
  predicate StartsWith(s: string, prefix: string) {
    prefix <= s
  }

  /** A separator that the right-hand part lacks splits a text in only one way:
      what `rpartition` and `rsplit` rely on. */
  lemma LastSeparatorUnique(a: string, x: string, b: string, y: string, sep: char)
    requires a + [sep] + x == b + [sep] + y
    requires sep !in x && sep !in y
    ensures a == b && x == y
  {
    var s := a + [sep] + x;
    assert s[|a|] == sep && s == b + [sep] + y && s[|b|] == sep;
    assert forall i :: |a| < i < |s| ==> s[i] == x[i - |a| - 1];
    assert forall i :: |b| < i < |s| ==> s[i] == y[i - |b| - 1];
    assert |a| == |b|;
    assert a == s[..|a|] && b == s[..|a|];
    assert x == s[|a| + 1..] && y == s[|a| + 1..];
  }
}
