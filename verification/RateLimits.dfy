/** Two sliding windows: the notification rate limit (`Notifier._enqueue`) and the
    login limiter (`Auth._limited`, `_fail`, `_clear`, `login`), the latter with any
    number of logins under way at once. */
module RateLimits {
  import opened Prelude

  ghost predicate Ascending(s: seq<real>, last: real) {
    (forall i, j :: 0 <= i < j < |s| ==> s[i] <= s[j]) && forall i :: 0 <= i < |s| ==> s[i] <= last
  }

  /** The times still inside the window. */
  function Recent(s: seq<real>, now: real, span: real): (r: seq<real>)
    ensures |r| <= |s|
  {
    if s == [] then [] else
    Recent(s[..|s| - 1], now, span) + if now - s[|s| - 1] < span then [s[|s| - 1]] else []
  }

  /** Everything before position k has left the window, everything from k on is in it. */
  ghost predicate Cut(s: seq<real>, now: real, span: real, k: nat) {
    k <= |s| && (forall i :: 0 <= i < k ==> now - s[i] >= span) && forall i :: k <= i < |s| ==> now - s[i] < span
  }

  /** An ascending list has a cut. */
  lemma CutAt(s: seq<real>, now: real, span: real) returns (k: nat)
    requires Ascending(s, now)
    ensures Cut(s, now, span, k)
  {
    k := |s|;
    while k > 0 && now - s[k - 1] < span
      invariant k <= |s| && forall i :: k <= i < |s| ==> now - s[i] < span
    {
      k := k - 1;
    }
  }

  lemma {:induction false} RecentAtCut(s: seq<real>, now: real, span: real, k: nat)
    requires Cut(s, now, span, k)
    ensures Recent(s, now, span) == s[k..]
  {
    if s == [] {
      assert s[k..] == [];
    } else {
      var n := |s| - 1;
      var init := s[..n];
      if k == |s| {
        RecentAtCut(init, now, span, n);
        assert init[n..] == [] && s[k..] == [];
      } else {
        RecentAtCut(init, now, span, k);
        assert s[k..] == init[k..] + [s[n]];
      }
    }
  }

  /** On an ascending list the recent times are a suffix. */
  lemma RecentIsSuffix(s: seq<real>, now: real, span: real)
    requires Ascending(s, now)
    ensures var k := |s| - |Recent(s, now, span)|;
            s[k..] == Recent(s, now, span) && Cut(s, now, span, k)
  {
    var k := CutAt(s, now, span);
    RecentAtCut(s, now, span, k);
  }

  /** A kept list holds every time still inside the window, as a suffix of them all. */
  ghost predicate Keeps(kept: seq<real>, all: seq<real>, last: real, span: real) {
    |kept| <= |all| && kept == all[|all| - |kept|..] &&
    forall i :: 0 <= i < |all| - |kept| ==> last - all[i] >= span
  }

  lemma PruneKeeps(kept: seq<real>, all: seq<real>, last: real, now: real, span: real)
    requires Keeps(kept, all, last, span) && Ascending(all, last) && last <= now
    ensures var r := Recent(kept, now, span);
            Keeps(r, all, now, span) && forall i :: |all| - |r| <= i < |all| ==> now - all[i] < span
  {
    var r, base := Recent(kept, now, span), |all| - |kept|;
    SuffixAscends(all, base, last, now);
    RecentIsSuffix(kept, now, span);
    var k := |kept| - |r|;
    assert kept[k..] == all[base + k..];
    forall i | 0 <= i < |all| ensures if i < base + k then now - all[i] >= span else now - all[i] < span {
      if i >= base {
        assert all[i] == kept[i - base];
      }
    }
  }

  lemma SuffixAscends(all: seq<real>, base: nat, last: real, now: real)
    requires Ascending(all, last) && last <= now && base <= |all|
    ensures Ascending(all[base..], now)
  {
  }

  lemma AppendKeeps(kept: seq<real>, all: seq<real>, now: real, span: real)
    requires Keeps(kept, all, now, span) && Ascending(all, now)
    ensures Keeps(kept + [now], all + [now], now, span) && Ascending(all + [now], now)
  {
    var base := |all| - |kept|;
    assert (all + [now])[base..] == all[base..] + [now];
  }

  // ------------------------------------------------------------ notifications

  const MESSAGES: nat := 20
  const MESSAGE_SPAN: real := 600.0

  /** Any run of accepted messages shorter than the window has at most `limit`. */
  ghost predicate Spread(all: seq<real>, limit: nat, span: real) {
    forall j :: limit <= j < |all| ==> all[j] - all[j - limit] >= span
  }

  lemma FarApart(all: seq<real>, limit: nat, span: real, last: real, i: nat, j: nat)
    requires Spread(all, limit, span) && Ascending(all, last) && i + limit <= j < |all|
    ensures all[j] - all[i] >= span
  {
    assert all[i + limit] - all[i + limit - limit] >= span;
  }

  lemma SpreadMeaning(all: seq<real>, limit: nat, span: real, last: real, i: nat, j: nat)
    requires Spread(all, limit, span) && Ascending(all, last)
    requires i <= j < |all| && all[j] - all[i] < span
    ensures j - i + 1 <= limit
  {
    if j - i >= limit {
      FarApart(all, limit, span, last, i, j);
    }
  }

  /** Once `limit` recent times are enough to refuse, a further one keeps the spread. */
  lemma SpreadAppend(all: seq<real>, limit: nat, span: real, now: real)
    requires Spread(all, limit, span)
    requires |all| >= limit ==> limit > 0 && now - all[|all| - limit] >= span
    ensures Spread(all + [now], limit, span)
  {
    var s := all + [now];
    forall j | limit <= j < |s| ensures s[j] - s[j - limit] >= span {
      if j == |all| {
        assert s[j - limit] == all[|all| - limit];
      } else {
        assert s[j - limit] == all[j - limit];
      }
    }
  }

  class Outbox {
    var sentTimes: seq<real>
    var dropped: nat
    ghost var accepted: seq<real>
    ghost var last: real
    /** How many messages were ever handed in. */
    ghost var offered: nat

    ghost predicate Valid()
      reads this
    {
      SenderOk(sentTimes, accepted, last)
    }

    constructor (now: real)
      ensures Valid() && accepted == [] && last == now && offered == 0
    {
      sentTimes, dropped, accepted, last, offered := [], 0, [], now, 0;
    }

    /** `full` says that the delivery queue has no room. */
    method Enqueue(now: real, full: bool) returns (admitted: bool)
      requires Valid() && last <= now
      modifies this
      ensures Valid() && last == now && offered == old(offered) + 1
      ensures accepted == if admitted then old(accepted) + [now] else old(accepted)
      // Refused exactly when the last 600 s already hold twenty.
      ensures !admitted <==> |old(accepted)| >= 20 && now - old(accepted)[|old(accepted)| - 20] < 600.0
      ensures dropped == old(dropped) + if admitted && !full then 0 else 1
    {
      AdmitStep(sentTimes, accepted, last, now);
      sentTimes := Recent(sentTimes, now, MESSAGE_SPAN);
      last, offered := now, offered + 1;
      if |sentTimes| >= MESSAGES {
        dropped := dropped + 1;
        return false;
      }
      sentTimes := sentTimes + [now];
      accepted := accepted + [now];
      if full {
        dropped := dropped + 1;
      }
      return true;
    }
  }

  /** What a sender keeps of the times it accepted. */
  ghost predicate SenderOk(kept: seq<real>, accepted: seq<real>, last: real) {
    Ascending(accepted, last) && Keeps(kept, accepted, last, MESSAGE_SPAN) && Spread(accepted, MESSAGES, MESSAGE_SPAN)
  }

  lemma AdmitStep(kept: seq<real>, accepted: seq<real>, last: real, now: real)
    requires SenderOk(kept, accepted, last) && last <= now
    ensures var r := Recent(kept, now, MESSAGE_SPAN);
            && SenderOk(r, accepted, now)
            && (|r| < MESSAGES ==> SenderOk(r + [now], accepted + [now], now))
            && (|r| >= MESSAGES <==> |accepted| >= 20 && now - accepted[|accepted| - 20] < 600.0)
  {
    var r := Recent(kept, now, MESSAGE_SPAN);
    PruneKeeps(kept, accepted, last, now, MESSAGE_SPAN);
    AppendKeeps(r, accepted, now, MESSAGE_SPAN);
    if |r| < MESSAGES {
      SpreadAppend(accepted, MESSAGES, MESSAGE_SPAN, now);
    }
  }

  // ------------------------------------------------------------------- logins

  const ATTEMPTS: nat := 8
  const LOGIN_SPAN: real := 300.0

  /** One address since its last successful login: every recorded failure, how many
      logins are under way, and the most that ever were at once. */
  datatype Address = Address(fails: seq<real>, underway: nat, peak: nat)

  /** Seven more than the most logins at once, or than one. */
  ghost function Limit(a: Address): nat {
    ATTEMPTS - 1 + if a.peak == 0 then 1 else a.peak
  }

  ghost function Begun(a: Address): Address {
    a.(underway := a.underway + 1, peak := if a.underway + 1 > a.peak then a.underway + 1 else a.peak)
  }

  /** The bound, with what keeps it: once eight failures are in the window no login
      starts, so only those already under way can still add to them. */
  ghost predicate Bounded(a: Address, last: real) {
    && Ascending(a.fails, last) && a.underway <= a.peak
    && (forall i :: 0 <= i && i + ATTEMPTS <= |a.fails| && last - a.fails[i] < LOGIN_SPAN ==>
          |a.fails| - i + a.underway <= ATTEMPTS - 1 + a.peak)
    && Spread(a.fails, Limit(a), LOGIN_SPAN)
  }

  lemma Later(a: Address, last: real, now: real)
    requires Bounded(a, last) && last <= now
    ensures Bounded(a, now)
  {
  }

  lemma SpreadLoosens(all: seq<real>, limit: nat, more: nat, span: real, last: real)
    requires Spread(all, limit, span) && Ascending(all, last) && limit <= more
    ensures Spread(all, more, span)
  {
    forall j | more <= j < |all| ensures all[j] - all[j - more] >= span {
      assert all[j] - all[j - limit] >= span;
    }
  }

  lemma Starts(a: Address, now: real)
    requires Bounded(a, now) && forall i :: 0 <= i && i + ATTEMPTS <= |a.fails| ==> now - a.fails[i] >= LOGIN_SPAN
    ensures Bounded(Begun(a), now)
  {
    SpreadLoosens(a.fails, Limit(a), Limit(Begun(a)), LOGIN_SPAN, now);
  }

  lemma Fails(a: Address, now: real)
    requires Bounded(a, now) && a.underway > 0
    ensures Bounded(a.(fails := a.fails + [now], underway := a.underway - 1), now)
  {
    var fs := a.fails + [now];
    forall i | 0 <= i && i + ATTEMPTS <= |fs| && now - fs[i] < LOGIN_SPAN
      ensures |fs| - i + (a.underway - 1) <= ATTEMPTS - 1 + a.peak
    {
      assert i + ATTEMPTS <= |a.fails| ==> fs[i] == a.fails[i];
    }
    var limit := Limit(a);
    assert |a.fails| >= limit ==> now - a.fails[|a.fails| - limit] >= LOGIN_SPAN;
    SpreadAppend(a.fails, limit, LOGIN_SPAN, now);
  }

  /** No login starts while eight failures are in the window. */
  ghost predicate Refused(a: Address, now: real) {
    |a.fails| >= ATTEMPTS && now - a.fails[|a.fails| - ATTEMPTS] < LOGIN_SPAN
  }

  function Stored(attempts: map<string, seq<real>>, addr: string): seq<real> {
    if addr in attempts then attempts[addr] else []
  }

  ghost function Known(addresses: map<string, Address>, addr: string): Address {
    if addr in addresses then addresses[addr] else Address([], 0, 0)
  }

  ghost predicate AddressOk(attempts: map<string, seq<real>>, addresses: map<string, Address>, addr: string,
                            last: real) {
    var a := Known(addresses, addr);
    Bounded(a, last) && Keeps(Stored(attempts, addr), a.fails, last, LOGIN_SPAN)
  }

  ghost predicate AllOk(attempts: map<string, seq<real>>, addresses: map<string, Address>, last: real) {
    forall addr :: AddressOk(attempts, addresses, addr, last)
  }

  ghost function Failed(a: Address, now: real): Address
    requires a.underway > 0
  {
    a.(fails := a.fails + [now], underway := a.underway - 1)
  }

  ghost function Succeeded(a: Address): Address
    requires a.underway > 0
  {
    a.(fails := [], underway := a.underway - 1)
  }

  /** One address is now so, the others are as they were. */
  ghost predicate Only(was: map<string, Address>, now: map<string, Address>, addr: string, a: Address) {
    addr in now && now[addr] == a && forall x :: x != addr ==> Known(now, x) == Known(was, x)
  }

  lemma OnlyThis(was: map<string, Address>, addr: string, a: Address)
    ensures Only(was, was[addr := a], addr, a)
  {
  }

  lemma BeginStep(stored: seq<real>, a: Address, last: real, now: real)
    requires Bounded(a, last) && Keeps(stored, a.fails, last, LOGIN_SPAN) && last <= now
    ensures var kept := Recent(stored, now, LOGIN_SPAN);
            Keeps(kept, a.fails, now, LOGIN_SPAN) && Bounded(a, now) &&
            (|kept| >= ATTEMPTS <==> Refused(a, now)) &&
            (|kept| < ATTEMPTS ==> Bounded(Begun(a), now))
  {
    PruneKeeps(stored, a.fails, last, now, LOGIN_SPAN);
    Later(a, last, now);
    if |Recent(stored, now, LOGIN_SPAN)| < ATTEMPTS {
      Starts(a, now);
    }
  }

  lemma LaterOk(kept: seq<real>, a: Address, last: real, now: real)
    requires Bounded(a, last) && Keeps(kept, a.fails, last, LOGIN_SPAN) && last <= now
    ensures Bounded(a, now) && Keeps(kept, a.fails, now, LOGIN_SPAN)
  {
  }

  /** Changing one address leaves the others as they were, only later. */
  lemma OneAddress(attempts: map<string, seq<real>>, addresses: map<string, Address>, last: real, now: real,
                   addr: string, after: map<string, seq<real>>, known: map<string, Address>)
    requires AllOk(attempts, addresses, last) && last <= now
    requires forall x {:trigger Stored(after, x)} :: x != addr ==> Stored(after, x) == Stored(attempts, x)
    requires forall x {:trigger Known(known, x)} :: x != addr ==> Known(known, x) == Known(addresses, x)
    requires AddressOk(after, known, addr, now)
    ensures AllOk(after, known, now)
  {
    forall x ensures AddressOk(after, known, x, now) {
      if x != addr {
        assert AddressOk(attempts, addresses, x, last);
        assert Stored(after, x) == Stored(attempts, x) && Known(known, x) == Known(addresses, x);
        LaterOk(Stored(after, x), Known(known, x), last, now);
      }
    }
  }

  class LoginLimiter {
    var attempts: map<string, seq<real>>
    ghost var addresses: map<string, Address>
    ghost var last: real

    ghost predicate Valid()
      reads this
    {
      AllOk(attempts, addresses, last)
    }

    constructor (now: real)
      ensures Valid() && last == now && addresses == map[]
    {
      attempts, addresses, last := map[], map[], now;
    }

    /** A login begins: refused when the window already holds eight failures. */
    method Begin(addr: string, now: real) returns (limited: bool)
      requires Valid() && last <= now
      modifies this
      ensures Valid() && last == now
      ensures limited <==> Refused(Known(old(addresses), addr), now)
      ensures var a := Known(old(addresses), addr);
              && (limited <==> |a.fails| >= 8 && now - a.fails[|a.fails| - 8] < 300.0)
              && (limited ==> addresses == old(addresses))
              && (!limited ==> Only(old(addresses), addresses, addr,
                                    Address(a.fails, a.underway + 1, Max(a.peak, a.underway + 1))))
      ensures addresses == if limited then old(addresses)
                           else old(addresses)[addr := Begun(Known(old(addresses), addr))]
    {
      ghost var a := Known(addresses, addr);
      assert AddressOk(attempts, addresses, addr, last);
      var kept := Recent(Stored(attempts, addr), now, LOGIN_SPAN);
      BeginStep(Stored(attempts, addr), a, last, now);
      limited := |kept| >= ATTEMPTS;
      ghost var known := if limited then addresses else addresses[addr := Begun(a)];
      OnlyThis(addresses, addr, Begun(a));
      OneAddress(attempts, addresses, last, now, addr, attempts[addr := kept], known);
      attempts, addresses, last := attempts[addr := kept], known, now;
    }

    /** A login under way ends in a wrong password. */
    method Fail(addr: string, now: real)
      requires Valid() && last <= now && Known(addresses, addr).underway > 0
      modifies this
      ensures Valid() && last == now
      ensures addresses == old(addresses)[addr := Failed(Known(old(addresses), addr), now)]
      ensures var a := Known(old(addresses), addr);
              Only(old(addresses), addresses, addr, Address(a.fails + [now], a.underway - 1, a.peak))
    {
      ghost var a := Known(addresses, addr);
      assert AddressOk(attempts, addresses, addr, last);
      Later(a, last, now);
      Fails(a, now);
      AppendKeeps(Stored(attempts, addr), a.fails, now, LOGIN_SPAN);
      var times := Stored(attempts, addr) + [now];
      OneAddress(attempts, addresses, last, now, addr, attempts[addr := times], addresses[addr := Failed(a, now)]);
      attempts, addresses, last := attempts[addr := times], addresses[addr := Failed(a, now)], now;
    }

    /** A login under way succeeds: the address starts afresh. */
    method Succeed(addr: string)
      requires Valid() && Known(addresses, addr).underway > 0
      modifies this
      ensures Valid() && last == old(last)
      ensures addresses == old(addresses)[addr := Succeeded(Known(old(addresses), addr))]
      ensures var a := Known(old(addresses), addr);
              Only(old(addresses), addresses, addr, Address([], a.underway - 1, a.peak))
    {
      ghost var a := Known(addresses, addr);
      assert AddressOk(attempts, addresses, addr, last);
      OneAddress(attempts, addresses, last, last, addr, attempts - {addr}, addresses[addr := Succeeded(a)]);
      attempts, addresses := attempts - {addr}, addresses[addr := Succeeded(a)];
    }
  }

  /** In any span shorter than the window without a success, an address records at most
      seven failures more than the most logins it ever had under way at once; so at
      most eight when its logins come one at a time. */
  lemma FailuresBounded(a: Address, last: real, i: nat, j: nat)
    requires Bounded(a, last) && i <= j < |a.fails| && a.fails[j] - a.fails[i] < LOGIN_SPAN
    ensures a.peak >= 1 ==> j - i + 1 <= 7 + a.peak
    ensures a.peak <= 1 ==> j - i + 1 <= 8
  {
    SpreadMeaning(a.fails, Limit(a), LOGIN_SPAN, last, i, j);
  }

  // The bound is reached: logins may begin together before any of them has failed.

  datatype Login = Begins | Ends

  /** What an address goes through at one moment; None if a login would be refused. */
  ghost function Course(a: Address, steps: seq<Login>, now: real): Option<Address> {
    if steps == [] then Some(a) else
    match Course(a, steps[..|steps| - 1], now)
    case None => None
    case Some(b) =>
      if steps[|steps| - 1].Begins? then if Refused(b, now) then None else Some(Begun(b))
      else if b.underway == 0 then None else Some(Failed(b, now))
  }

  lemma CourseAppend(a: Address, steps: seq<Login>, step: Login, now: real)
    requires Course(a, steps, now).Some?
    ensures var b := Course(a, steps, now).value;
            Course(a, steps + [step], now) ==
            if step.Begins? then if Refused(b, now) then None else Some(Begun(b))
            else if b.underway == 0 then None else Some(Failed(b, now))
  {
    assert (steps + [step])[..|steps|] == steps;
  }

  ghost function Times(now: real, n: nat): seq<real> {
    seq(n, _ => now)
  }

  lemma TimesAppend(now: real, n: nat)
    ensures Times(now, n) + [now] == Times(now, n + 1)
  {
  }

  /** Logins one at a time, each failing before the next begins. */
  lemma {:induction false} OneAtATime(n: nat, now: real) returns (steps: seq<Login>)
    requires n < ATTEMPTS
    ensures Course(Address([], 0, 0), steps, now) == Some(Address(Times(now, n), 0, if n == 0 then 0 else 1))
  {
    if n == 0 {
      steps := [];
      assert Times(now, 0) == [];
    } else {
      var before := OneAtATime(n - 1, now);
      CourseAppend(Address([], 0, 0), before, Begins, now);
      CourseAppend(Address([], 0, 0), before + [Begins], Ends, now);
      TimesAppend(now, n - 1);
      steps := before + [Begins] + [Ends];
    }
  }

  lemma {:induction false} BeginTogether(p: nat, now: real) returns (steps: seq<Login>)
    requires p > 0
    ensures Course(Address([], 0, 0), steps, now) == Some(Address(Times(now, ATTEMPTS - 1), p, p))
  {
    var before: seq<Login>;
    if p == 1 {
      before := OneAtATime(ATTEMPTS - 1, now);
    } else {
      before := BeginTogether(p - 1, now);
    }
    CourseAppend(Address([], 0, 0), before, Begins, now);
    steps := before + [Begins];
  }

  lemma {:induction false} FailTogether(p: nat, k: nat, now: real) returns (steps: seq<Login>)
    requires p > 0 && k <= p
    ensures Course(Address([], 0, 0), steps, now) == Some(Address(Times(now, ATTEMPTS - 1 + k), p - k, p))
  {
    if k == 0 {
      steps := BeginTogether(p, now);
    } else {
      var before := FailTogether(p, k - 1, now);
      CourseAppend(Address([], 0, 0), before, Ends, now);
      TimesAppend(now, ATTEMPTS - 1 + k - 1);
      steps := before + [Ends];
    }
  }

  /** Seven failures, then as many logins as one likes begun together, all failing. */
  lemma PeakIsReached(p: nat, now: real)
    requires p > 0
    ensures exists steps :: Course(Address([], 0, 0), steps, now) == Some(Address(Times(now, 7 + p), 0, p))
  {
    var steps := FailTogether(p, p, now);
  }

  /** Two at once are enough for nine failures where eight are meant to be the most. */
  lemma NineInOneWindow(now: real)
    ensures exists steps, a :: Course(Address([], 0, 0), steps, now) == Some(a) && |a.fails| == 9 && a.peak == 2
  {
    PeakIsReached(2, now);
    var steps :| Course(Address([], 0, 0), steps, now) == Some(Address(Times(now, 9), 0, 2));
  }

  /** Any accepted messages that fit in less than ten minutes are at most twenty. */
  lemma MessagesBounded(accepted: seq<real>, last: real, i: nat, j: nat)
    requires Spread(accepted, MESSAGES, MESSAGE_SPAN) && Ascending(accepted, last)
    requires i <= j < |accepted| && accepted[j] - accepted[i] < MESSAGE_SPAN
    ensures j - i + 1 <= 20
  {
    SpreadMeaning(accepted, MESSAGES, MESSAGE_SPAN, last, i, j);
  }
}
