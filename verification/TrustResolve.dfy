/** Which address a request is held to come from (`resolve`, `_strip_port`, `is_trusted`):
    behind trusted proxies, the first hop from the right that is not one of them, whatever
    the client wrote to its left. */
module TrustResolve {
  import opened Prelude

  /** How addresses are read (`ipaddress`, giving the canonical text, IPv4-mapped IPv6
      as IPv4) and which canonical ones lie in a trusted network. */
  datatype Net = Net(parse: string -> Option<string>, trusts: string -> bool)

  /** Whitespace among the characters a header can carry. */
  predicate Blank(c: char) {
    var v := c as int;
    9 <= v <= 13 || 28 <= v <= 32 || v == 133 || v == 160
  }

  /** `strip()`. */
  function Strip(s: string): string {
    if s != "" && Blank(s[0]) then Strip(s[1..])
    else if s != "" && Blank(s[|s| - 1]) then Strip(s[..|s| - 1])
    else s
  }

  function Find(s: string, c: char): (k: int)
    ensures -1 <= k < |s|
    ensures k >= 0 ==> s[k] == c
    ensures k >= 0 <==> c in s
  {
    if s == "" then -1 else if s[0] == c then 0 else if Find(s[1..], c) < 0 then -1 else 1 + Find(s[1..], c)
  }

  function Occurrences(s: string, c: char): (n: nat)
    ensures n > 0 <==> c in s
  {
    if s == "" then 0 else (if s[0] == c then 1 else 0) + Occurrences(s[1..], c)
  }

  /** `_strip_port`: one colon is a port's; an unbracketed IPv6 address has more. */
  function StripPort(text: string): string {
    var t := Strip(text);
    if t != "" && t[0] == '[' then
      if Find(t, ']') > 0 then t[1..Find(t, ']')] else t
    else if Occurrences(t, ':') == 1 then t[..Find(t, ':')]
    else t
  }

  /** The white space among the characters a header can carry: the ASCII one with the
      four separators, the next-line and the no-break space. */
  ghost predicate Space(c: char) {
    c as int in {9, 10, 11, 12, 13, 28, 29, 30, 31, 32, 133, 160}
  }

  ghost predicate AllSpace(s: string) {
    forall i :: 0 <= i < |s| ==> Space(s[i])
  }

  ghost predicate Plain(s: string) {
    s != "" ==> !Space(s[0]) && !Space(s[|s| - 1])
  }

  ghost predicate Around(text: string, a: string, t: string, b: string) {
    AllSpace(a) && AllSpace(b) && Plain(t) && text == a + t + b
  }

  /** What is left of the text without the white space around it. */
  ghost predicate Trimmed(text: string, t: string) {
    exists a, b :: Around(text, a, t, b)
  }

  lemma SpaceBefore(c: char, text: string, a: string, t: string, b: string)
    requires Space(c) && Around(text, a, t, b)
    ensures Around([c] + text, [c] + a, t, b)
  {
  }

  lemma SpaceAfter(c: char, text: string, a: string, t: string, b: string)
    requires Space(c) && Around(text, a, t, b)
    ensures Around(text + [c], a, t, b + [c])
  {
  }

  lemma {:induction false} StripTrims(s: string) returns (a: string, b: string)
    ensures Around(s, a, Strip(s), b)
  {
    if s != "" && Blank(s[0]) {
      var x, y := StripTrims(s[1..]);
      SpaceBefore(s[0], s[1..], x, Strip(s[1..]), y);
      assert s == [s[0]] + s[1..];
      a, b := [s[0]] + x, y;
    } else if s != "" && Blank(s[|s| - 1]) {
      var x, y := StripTrims(s[..|s| - 1]);
      SpaceAfter(s[|s| - 1], s[..|s| - 1], x, Strip(s[..|s| - 1]), y);
      assert s == s[..|s| - 1] + [s[|s| - 1]];
      a, b := x, y + [s[|s| - 1]];
    } else {
      a, b := "", "";
      assert s == a + s + b;
    }
  }

  lemma {:induction false} BlankStrips(s: string)
    ensures Strip(s) == "" <==> AllSpace(s)
  {
    var a, b := StripTrims(s);
    if Strip(s) != "" {
      assert s[|a|] == Strip(s)[0];
    }
  }

  lemma {:induction false} OccurrencesJoin(a: string, b: string, c: char)
    ensures Occurrences(a + b, c) == Occurrences(a, c) + Occurrences(b, c)
  {
    if a == "" {
      assert a + b == b;
    } else {
      OccurrencesJoin(a[1..], b, c);
      assert (a + b)[1..] == a[1..] + b;
    }
  }

  /** The text up to the first `c`. */
  ghost predicate UpTo(t: string, c: char, head: string) {
    |head| < |t| && t[..|head|] == head && t[|head|] == c && c !in head
  }

  ghost predicate OnlyOne(t: string, c: char) {
    exists a, b :: t == a + [c] + b && c !in a && c !in b
  }

  /** What is between brackets, if the text opens with one that is closed; what is before
      the colon, if it holds exactly one; all of it otherwise. */
  ghost predicate PortGone(t: string, host: string) {
    if t != "" && t[0] == '[' then
      if ']' in t then UpTo(t, ']', "[" + host) else host == t
    else if OnlyOne(t, ':') then UpTo(t, ':', host)
    else host == t
  }

  ghost predicate PortOff(text: string, host: string) {
    exists t :: Trimmed(text, t) && PortGone(t, host)
  }

  lemma {:induction false} OccursOnce(t: string, c: char)
    ensures Occurrences(t, c) == 1 <==> OnlyOne(t, c)
  {
    if Occurrences(t, c) == 1 {
      var k := Find(t, c);
      FirstFound(t, c);
      assert t == t[..k] + [c] + t[k + 1..];
      OccurrencesJoin(t[..k] + [c], t[k + 1..], c);
      OccurrencesJoin(t[..k], [c], c);
      assert Occurrences([c], c) == 1;
    }
    if a, b :| t == a + [c] + b && c !in a && c !in b {
      OccurrencesJoin(a + [c], b, c);
      OccurrencesJoin(a, [c], c);
      assert Occurrences([c], c) == 1;
    }
  }

  lemma {:induction false} FirstFound(t: string, c: char)
    requires c in t
    ensures 0 <= Find(t, c) < |t| && UpTo(t, c, t[..Find(t, c)])
  {
    if t[0] == c {
    } else {
      FirstFound(t[1..], c);
      var k := Find(t[1..], c);
      assert t[..k + 1] == [t[0]] + t[1..][..k];
    }
  }

  /** A port is taken off host:port and off a bracketed address, an unbracketed IPv6
      address is left alone, and white space around any of them goes. */
  lemma StripPortMeaning(text: string)
    ensures PortOff(text, StripPort(text))
  {
    var a, b := StripTrims(text);
    var t := Strip(text);
    OccursOnce(t, ':');
    if t != "" && t[0] == '[' {
      if ']' in t {
        FirstFound(t, ']');
        var k := Find(t, ']');
        assert t[..k] == "[" + t[1..k];
      }
    } else if Occurrences(t, ':') == 1 {
      FirstFound(t, ':');
    }
    assert PortGone(t, StripPort(text));
  }

  /** `_address`. */
  function Address(text: string, net: Net): Option<string> {
    var t := Strip(text);
    net.parse(if |t| >= 2 && t[0] == '[' && t[|t| - 1] == ']' then t[1..|t| - 1] else t)
  }

  /** The brackets around the text go, if it has them. */
  ghost predicate Unbracketed(t: string, u: string) {
    if t == "[" + u + "]" then true else u == t && forall v :: t != "[" + v + "]"
  }

  /** Without white space and brackets, the text reads as this address. */
  ghost predicate ReadsAs(text: string, net: Net, addr: Option<string>) {
    exists t, u :: Trimmed(text, t) && Unbracketed(t, u) && addr == net.parse(u)
  }

  lemma AddressMeaning(text: string, net: Net)
    ensures ReadsAs(text, net, Address(text, net))
  {
    var a, b := StripTrims(text);
    var t := Strip(text);
    if |t| >= 2 && t[0] == '[' && t[|t| - 1] == ']' {
      assert t == "[" + t[1..|t| - 1] + "]";
      assert Unbracketed(t, t[1..|t| - 1]);
    } else {
      forall v ensures t != "[" + v + "]" {
        var w := "[" + v + "]";
        assert |w| >= 2 && w[0] == '[' && w[|w| - 1] == ']';
      }
      assert Unbracketed(t, t);
    }
  }

  /** `is_trusted`. */
  predicate IsTrusted(peer: string, net: Net) {
    Address(peer, net).Some? && net.trusts(Address(peer, net).value)
  }

  /** The text reads as an address in a declared network. */
  ghost predicate Declared(text: string, net: Net) {
    match Address(text, net)
    case Some(addr) => net.trusts(addr)
    case None => false
  }

  /** The hop reads as an address, and that as one in a declared network. */
  ghost predicate Relayed(hop: string, net: Net) {
    match Address(hop, net)
    case Some(addr) => Declared(addr, net)
    case None => false
  }

  // ------------------------------------------------------------------ the walk

  /** A hop that parses to a trusted proxy. */
  predicate Proxy(hop: string, net: Net) {
    Address(hop, net).Some? && IsTrusted(Address(hop, net).value, net)
  }

  /** From the right: past trusted proxies to the first other hop; the last proxy passed
      if that hop is unreadable or there is none. */
  function Walked(chain: seq<string>, net: Net): Option<string> {
    if chain == [] then None else
    var hop, init := chain[|chain| - 1], chain[..|chain| - 1];
    if !Proxy(hop, net) then Address(hop, net)
    else if Walked(init, net).Some? then Walked(init, net)
    else Address(hop, net)
  }

  method Walk(chain: seq<string>, net: Net) returns (client: Option<string>)
    ensures client == Walked(chain, net)
  {
    client := None;
    var k := |chain|;
    assert chain[..k] == chain;
    while k > 0
      invariant 0 <= k <= |chain|
      invariant Walked(chain, net) ==
                if Walked(chain[..k], net).Some? then Walked(chain[..k], net) else client
    {
      assert chain[..k][..k - 1] == chain[..k - 1];
      var addr := Address(chain[k - 1], net);
      if addr.None? {
        return;
      }
      client := addr;
      if !IsTrusted(addr.value, net) {
        return;
      }
      k := k - 1;
    }
  }

  ghost predicate ProxiesFrom(chain: seq<string>, net: Net, i: nat) {
    forall j :: i <= j < |chain| ==> Relayed(chain[j], net)
  }

  /** Hop `i` is the first from the right that is not a proxy, or the last proxy before
      an unreadable hop or the end. */
  ghost predicate StopsAt(chain: seq<string>, net: Net, i: int) {
    0 <= i < |chain| && ProxiesFrom(chain, net, i + 1) && Address(chain[i], net).Some? &&
    (Relayed(chain[i], net) ==> i == 0 || Address(chain[i - 1], net).None?)
  }

  lemma {:induction false} WalkStop(chain: seq<string>, net: Net) returns (i: int)
    requires Walked(chain, net).Some?
    ensures StopsAt(chain, net, i) && Address(chain[i], net) == Walked(chain, net)
  {
    var init, hop := chain[..|chain| - 1], chain[|chain| - 1];
    assert chain == init + [hop];
    if Relayed(hop, net) && Walked(init, net).Some? {
      i := WalkStop(init, net);
      StopsFurther(init, hop, net, i);
    } else {
      i := |chain| - 1;
      NoClient(init, net);
    }
  }

  lemma NoClient(chain: seq<string>, net: Net)
    ensures Walked(chain, net).None? <==> chain == [] || Address(chain[|chain| - 1], net).None?
  {
  }

  /** And it stops nowhere else. */
  lemma {:induction false} StopIsWalked(chain: seq<string>, net: Net, i: int)
    requires StopsAt(chain, net, i)
    ensures Walked(chain, net) == Address(chain[i], net)
  {
    var init := chain[..|chain| - 1];
    if i < |init| {
      assert Relayed(chain[|init|], net);
      assert ProxiesFrom(init, net, i + 1);
      StopIsWalked(init, net, i);
    } else {
      NoClient(init, net);
    }
  }

  /** The client is where the walk stops, with only trusted proxies to its right. */
  lemma WalkMeaning(chain: seq<string>, net: Net)
    ensures Walked(chain, net).None? <==> chain == [] || Address(chain[|chain| - 1], net).None?
    ensures Walked(chain, net).Some? ==>
              exists i :: StopsAt(chain, net, i) && Address(chain[i], net) == Walked(chain, net)
    ensures forall i :: StopsAt(chain, net, i) ==> Address(chain[i], net) == Walked(chain, net)
  {
    NoClient(chain, net);
    if Walked(chain, net).Some? {
      var i := WalkStop(chain, net);
    }
    forall i | StopsAt(chain, net, i) ensures Address(chain[i], net) == Walked(chain, net) {
      StopIsWalked(chain, net, i);
    }
  }

  lemma StopsFurther(init: seq<string>, hop: string, net: Net, i: int)
    requires StopsAt(init, net, i) && Relayed(hop, net)
    ensures StopsAt(init + [hop], net, i) && (init + [hop])[i] == init[i]
  {
  }

  /** Nothing left of an untrusted address counts. */
  lemma {:induction false} LeftIsIgnored(before: seq<string>, hop: string, after: seq<string>, net: Net)
    requires Address(hop, net).Some? && !Relayed(hop, net) && ProxiesFrom(after, net, 0)
    ensures Walked(before + [hop] + after, net) == Address(hop, net)
  {
    var chain := before + [hop] + after;
    if after == [] {
      assert chain[|chain| - 1] == hop;
    } else {
      var init := after[..|after| - 1];
      LeftIsIgnored(before, hop, init, net);
      assert chain[..|chain| - 1] == before + [hop] + init;
    }
  }

  // ---------------------------------------------------------------- the header

  /** `text.split(",")`. */
  function Split(text: string): (parts: seq<string>)
    ensures parts != []
  {
    if text == "" then [""]
    else if text[0] == ',' then [""] + Split(text[1..])
    else
      var rest := Split(text[1..]);
      [[text[0]] + rest[0]] + rest[1..]
  }

  /** One character in front of a split text. */
  function Prefixed(c: char, parts: seq<string>): seq<string>
    requires parts != []
  {
    if c == ',' then [""] + parts else [[c] + parts[0]] + parts[1..]
  }

  lemma SplitStep(c: char, text: string)
    ensures Split([c] + text) == Prefixed(c, Split(text))
  {
    assert ([c] + text)[1..] == text;
  }

  lemma PrefixedJoin(c: char, a: seq<string>, b: seq<string>)
    requires a != []
    ensures Prefixed(c, a + b) == Prefixed(c, a) + b
  {
    assert (a + b)[1..] == a[1..] + b;
  }

  lemma {:induction false} SplitJoins(a: string, b: string)
    ensures Split(a + "," + b) == Split(a) + Split(b)
  {
    if a == "" {
      assert a + "," + b == [','] + b;
      SplitStep(',', b);
    } else {
      var c, rest := a[0], a[1..];
      assert a == [c] + rest && a + "," + b == [c] + (rest + "," + b);
      SplitStep(c, rest);
      SplitStep(c, rest + "," + b);
      SplitJoins(rest, b);
      PrefixedJoin(c, Split(rest), Split(b));
    }
  }

  lemma {:induction false} SplitPlain(a: string)
    requires ',' !in a
    ensures Split(a) == [a]
  {
    if a == "" {
    } else {
      SplitPlain(a[1..]);
      assert [a[0]] + a[1..] == a;
    }
  }

  ghost function Joined(parts: seq<string>): string
    requires parts != []
  {
    if |parts| == 1 then parts[0] else parts[0] + "," + Joined(parts[1..])
  }

  /** The parts between the commas. */
  ghost predicate Splits(text: string, parts: seq<string>) {
    parts != [] && text == Joined(parts) && forall i :: 0 <= i < |parts| ==> ',' !in parts[i]
  }

  lemma {:induction false} SplitMeaning(text: string)
    ensures Splits(text, Split(text))
  {
    if text == "" {
    } else {
      var c, rest := text[0], Split(text[1..]);
      SplitMeaning(text[1..]);
      assert text == [c] + text[1..];
      if c == ',' {
        assert ([""] + rest)[1..] == rest;
      } else {
        var parts := [[c] + rest[0]] + rest[1..];
        assert parts[1..] == rest[1..];
      }
    }
  }

  /** The addresses of the header's parts, blank parts left out. */
  function Hops(parts: seq<string>): seq<string> {
    if parts == [] then [] else
    Hops(parts[..|parts| - 1]) +
    if Strip(parts[|parts| - 1]) != "" then [StripPort(parts[|parts| - 1])] else []
  }

  lemma HopsAppend(parts: seq<string>, p: string)
    ensures Hops(parts + [p]) == Hops(parts) + if Strip(p) != "" then [StripPort(p)] else []
  {
    assert (parts + [p])[..|parts|] == parts;
  }

  lemma {:induction false} HopsJoin(a: seq<string>, b: seq<string>)
    ensures Hops(a + b) == Hops(a) + Hops(b)
  {
    if b == [] {
      assert a + b == a;
    } else {
      var init, p := b[..|b| - 1], b[|b| - 1];
      HopsJoin(a, init);
      HopsAppend(init, p);
      HopsAppend(a + init, p);
      assert b == init + [p] && a + b == a + init + [p];
    }
  }

  /** One hop for each part, in order, without its port. */
  ghost predicate HopsOf(hops: seq<string>, parts: seq<string>) {
    |hops| == |parts| && forall i :: 0 <= i < |parts| ==> PortOff(parts[i], hops[i])
  }

  lemma OneMoreHop(hops: seq<string>, parts: seq<string>, hop: string, part: string)
    requires HopsOf(hops, parts) && PortOff(part, hop)
    ensures HopsOf(hops + [hop], parts + [part])
  {
  }

  lemma {:induction false} HopsMeaning(parts: seq<string>)
    ensures HopsOf(Hops(parts), Filter(parts, p => !AllSpace(p)))
  {
    if parts == [] {
    } else {
      var init, p := parts[..|parts| - 1], parts[|parts| - 1];
      HopsMeaning(init);
      BlankStrips(p);
      if AllSpace(p) {
        assert Hops(init) + [] == Hops(init);
        assert Filter(init, p => !AllSpace(p)) + [] == Filter(init, p => !AllSpace(p));
      } else {
        StripPortMeaning(p);
        OneMoreHop(Hops(init), Filter(init, p => !AllSpace(p)), StripPort(p), p);
      }
    }
  }

  /** Parts a proxy may have appended after the client's address. */
  ghost predicate Appended(part: string, net: Net) {
    ',' !in part && (AllSpace(part) || Relayed(StripPort(part), net))
  }

  function Trail(parts: seq<string>): string {
    if parts == [] then "" else Trail(parts[..|parts| - 1]) + "," + parts[|parts| - 1]
  }

  lemma {:induction false} TrailSplits(text: string, parts: seq<string>)
    requires forall i :: 0 <= i < |parts| ==> ',' !in parts[i]
    ensures Split(text + Trail(parts)) == Split(text) + parts
  {
    if parts == [] {
      assert text + Trail(parts) == text;
    } else {
      var init, last := parts[..|parts| - 1], parts[|parts| - 1];
      TrailSplits(text, init);
      assert text + Trail(parts) == text + Trail(init) + "," + last;
      SplitJoins(text + Trail(init), last);
      SplitPlain(last);
    }
  }

  lemma {:induction false} TrailHops(parts: seq<string>, net: Net)
    requires forall i :: 0 <= i < |parts| ==> Appended(parts[i], net)
    ensures ProxiesFrom(Hops(parts), net, 0)
  {
    if parts == [] {
    } else {
      TrailHops(parts[..|parts| - 1], net);
      BlankStrips(parts[|parts| - 1]);
    }
  }

  // ------------------------------------------------------------------ resolving

  /** The headers that matter here, by lower-case name; `forwarded` are the `for`
      parameters of a parsed Forwarded header, None when it has no element at all. */
  datatype Headers = Headers(present: bool, forwardedFor: Option<string>, forwarded: Option<seq<string>>,
                             realIp: Option<string>)

  datatype Access = Access(client: string, viaProxy: bool, refused: bool)

  function PortsStripped(hops: seq<string>): seq<string> {
    if hops == [] then [] else PortsStripped(hops[..|hops| - 1]) + [StripPort(hops[|hops| - 1])]
  }

  /** X-Forwarded-For before Forwarded before X-Real-IP; an empty value does not count. */
  function Chain(h: Headers): seq<string> {
    if h.forwardedFor.Some? && h.forwardedFor.value != "" then Hops(Split(h.forwardedFor.value))
    else if h.forwarded.Some? then PortsStripped(h.forwarded.value)
    else if h.realIp.Some? && h.realIp.value != "" then [StripPort(h.realIp.value)]
    else []
  }

  lemma {:induction false} StrippedMeaning(hops: seq<string>)
    ensures HopsOf(PortsStripped(hops), hops)
  {
    if hops == [] {
    } else {
      var init, last := hops[..|hops| - 1], hops[|hops| - 1];
      StrippedMeaning(init);
      StripPortMeaning(last);
      OneMoreHop(PortsStripped(init), init, StripPort(last), last);
      assert hops == init + [last];
    }
  }

  /** The chain the headers name: the parts of X-Forwarded-For that are not blank; without
      that header the `for` parameters of Forwarded; without either X-Real-IP. */
  ghost predicate Names(h: Headers, chain: seq<string>) {
    if h.forwardedFor.Some? && h.forwardedFor.value != "" then
      exists parts :: Splits(h.forwardedFor.value, parts) && HopsOf(chain, Filter(parts, p => !AllSpace(p)))
    else if h.forwarded.Some? then HopsOf(chain, h.forwarded.value)
    else if h.realIp.Some? && h.realIp.value != "" then HopsOf(chain, [h.realIp.value])
    else chain == []
  }

  lemma ChainMeaning(h: Headers)
    ensures Names(h, Chain(h))
  {
    if h.forwardedFor.Some? && h.forwardedFor.value != "" {
      SplitMeaning(h.forwardedFor.value);
      HopsMeaning(Split(h.forwardedFor.value));
    } else if h.forwarded.Some? {
      StrippedMeaning(h.forwarded.value);
    } else if h.realIp.Some? && h.realIp.value != "" {
      StripPortMeaning(h.realIp.value);
    }
  }

  /** The client is the address of the hop at which the walk over the chain stops, and the
      peer if it stops nowhere. */
  ghost predicate ClientOf(client: string, peer: string, chain: seq<string>, net: Net) {
    if exists i :: StopsAt(chain, net, i) && Address(chain[i], net) != Some("") then
      exists i :: StopsAt(chain, net, i) && Address(chain[i], net) == Some(client)
    else client == peer
  }

  ghost predicate Attributed(access: Access, peer: string, h: Headers, net: Net) {
    && (access.refused <==> h.present && !Declared(peer, net))
    && (access.viaProxy <==> h.present && Declared(peer, net))
    && (access.viaProxy ==> exists chain :: Names(h, chain) && ClientOf(access.client, peer, chain, net))
    && (!access.viaProxy ==> access.client == peer)
  }

  lemma ResolvedMeaning(peer: string, h: Headers, net: Net)
    ensures Attributed(Resolved(peer, h, net), peer, h, net)
  {
    ChainMeaning(h);
    WalkMeaning(Chain(h), net);
    if h.present && Declared(peer, net) {
      assert ClientOf(Resolved(peer, h, net).client, peer, Chain(h), net);
    }
  }

  function Resolved(peer: string, h: Headers, net: Net): Access {
    if !h.present then Access(peer, false, false)
    else if !IsTrusted(peer, net) then Access(peer, false, true)
    else
      var client := Walked(Chain(h), net);
      Access(if client.Some? && client.value != "" then client.value else peer, true, false)
  }

  /** `resolve`, as far as the client's address goes. */
  method Resolve(peer: string, h: Headers, net: Net) returns (access: Access)
    ensures access == Resolved(peer, h, net) && Attributed(access, peer, h, net)
  {
    ResolvedMeaning(peer, h, net);
    access := Access(peer, false, false);
    if h.present {
      if !IsTrusted(peer, net) {
        access := access.(refused := true);
        return;
      }
      access := access.(viaProxy := true);
      var client := Walk(Chain(h), net);
      if client.Some? && client.value != "" {
        access := access.(client := client.value);
      }
    }
  }

  /** The client is the peer, or an address named in the chain with only trusted proxies
      to its right; forwarding headers from anyone but a trusted proxy are refused. */
  lemma ClientIsVouchedFor(peer: string, h: Headers, net: Net)
    ensures var access, chain := Resolved(peer, h, net), Chain(h);
            (access.refused <==> h.present && !Declared(peer, net)) &&
            (access.client != peer ==>
               Declared(peer, net) && !access.refused &&
               exists i :: 0 <= i < |chain| && Address(chain[i], net) == Some(access.client) &&
                 ProxiesFrom(chain, net, i + 1))
  {
    WalkMeaning(Chain(h), net);
  }

  /** From a trusted peer, a header of any text, a comma, an untrusted address and then
      whatever trusted proxies appended resolves to that address: no text the client puts
      in front can change it. */
  lemma SpoofProof(peer: string, h: Headers, net: Net, text: string, part: string, trail: seq<string>)
    requires h.present && Declared(peer, net)
    requires h.forwardedFor == Some(text + "," + part + Trail(trail))
    requires ',' !in part && !AllSpace(part)
    requires forall i :: 0 <= i < |trail| ==> Appended(trail[i], net)
    requires Address(StripPort(part), net).Some? && !Relayed(StripPort(part), net)
    requires Address(StripPort(part), net).value != ""
    ensures Resolved(peer, h, net) == Access(Address(StripPort(part), net).value, true, false)
  {
    var header := text + "," + part + Trail(trail);
    TrailSplits(text + "," + part, trail);
    SplitJoins(text, part);
    SplitPlain(part);
    assert Split(header) == Split(text) + [part] + trail;
    HopsJoin(Split(text) + [part], trail);
    HopsJoin(Split(text), [part]);
    assert [part][..0] == [];
    BlankStrips(part);
    assert Hops([part]) == [StripPort(part)];
    TrailHops(trail, net);
    LeftIsIgnored(Hops(Split(text)), StripPort(part), Hops(trail), net);
  }
}
