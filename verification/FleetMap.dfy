/** The fleet graph (`FleetMap.build`, `_edge`, `_external`): every socket the nodes report
    becomes part of an edge between two nodes, of an external peer, or is skipped because
    the other end is the one that counts it. */
module FleetMap {
  import opened Prelude

  datatype Addr = Addr(ip: string, port: int)

  /** An established socket as its node reports it, addresses already split. */
  datatype Conn = Conn(remote: Option<Addr>, localPort: Option<int>, name: string, attributed: bool,
                       sent: int, received: int, rtt: Option<real>, rttMin: Option<real>,
                       retrans: int, txQueue: int, rxQueue: int)

  /** A node; None among its sockets is an entry that is not an object. */
  datatype Node = Node(name: string, online: bool, readable: bool, addresses: seq<string>,
                       listeners: set<int>, established: seq<Option<Conn>>)

  /** Names are the registry's keys. */
  ghost predicate DistinctNames(fleet: seq<Node>) {
    forall i, j :: 0 <= i < j < |fleet| ==> fleet[i].name != fleet[j].name
  }

  // -------------------------------------------------------- who has an address

  /** The first node in the registry's order that has the address. */
  function Owner(fleet: seq<Node>, ip: string): Option<string> {
    if fleet == [] then None else
    var before := Owner(fleet[..|fleet| - 1], ip);
    if before.Some? then before
    else if ip in fleet[|fleet| - 1].addresses then Some(fleet[|fleet| - 1].name)
    else None
  }

  lemma {:induction false} OwnerMeaning(fleet: seq<Node>, ip: string)
    ensures Owner(fleet, ip).None? <==> forall i :: 0 <= i < |fleet| ==> ip !in fleet[i].addresses
    ensures Owner(fleet, ip).Some? ==>
              exists i :: 0 <= i < |fleet| && ip in fleet[i].addresses && Owner(fleet, ip) == Some(fleet[i].name) &&
                forall j :: 0 <= j < i ==> ip !in fleet[j].addresses
  {
    if fleet == [] {
    } else {
      var init := fleet[..|fleet| - 1];
      OwnerMeaning(init, ip);
      assert forall i :: 0 <= i < |init| ==> init[i] == fleet[i];
      if Owner(init, ip).Some? {
        var i :| 0 <= i < |init| && ip in init[i].addresses && Owner(init, ip) == Some(init[i].name) &&
          forall j :: 0 <= j < i ==> ip !in init[j].addresses;
        assert fleet[i] == init[i];
      }
    }
  }

  ghost predicate Indexed(byIp: map<string, string>, fleet: seq<Node>, ip: string) {
    Owner(fleet, ip) == if ip in byIp then Some(byIp[ip]) else None
  }

  method AddAddresses(byIp: map<string, string>, node: Node) returns (r: map<string, string>)
    ensures r == map ip | ip in byIp.Keys + (set i | 0 <= i < |node.addresses| :: node.addresses[i]) ::
                   if ip in byIp then byIp[ip] else node.name
  {
    r := byIp;
    for i := 0 to |node.addresses|
      invariant r == map ip | ip in byIp.Keys + (set j | 0 <= j < i :: node.addresses[j]) ::
                       if ip in byIp then byIp[ip] else node.name
    {
      if node.addresses[i] !in r {
        r := r[node.addresses[i] := node.name];
      }
    }
  }

  method IndexAddresses(fleet: seq<Node>) returns (byIp: map<string, string>)
    ensures forall ip :: Indexed(byIp, fleet, ip)
  {
    byIp := map[];
    ghost var done: seq<Node> := [];
    for n := 0 to |fleet|
      invariant done == fleet[..n] && forall ip :: Indexed(byIp, done, ip)
    {
      ghost var before, more := byIp, done + [fleet[n]];
      byIp := AddAddresses(byIp, fleet[n]);
      assert fleet[..n + 1] == more && more[..n] == done;
      forall ip ensures Indexed(byIp, more, ip) {
        assert Indexed(before, done, ip);
      }
      done := more;
    }
    assert done == fleet;
  }

  // --------------------------------------------------------- what counts where

  datatype Place = Ignored | External(peer: Addr) | ServerSide | EdgeTo(target: string, port: int)

  /** What becomes of one socket of one node. */
  function Classify(owner: Option<string>, node: Node, c: Conn, isLocal: string -> bool): Place {
    if c.remote.None? || isLocal(c.remote.value.ip) || owner == Some(node.name) then Ignored
    else if owner.None? then External(c.remote.value)
    else if c.localPort.Some? && c.localPort.value in node.listeners then ServerSide
    else EdgeTo(owner.value, c.remote.value.port)
  }

  function PlaceOf(fleet: seq<Node>, node: Node, c: Conn, isLocal: string -> bool): Place {
    Classify(if c.remote.Some? then Owner(fleet, c.remote.value.ip) else None, node, c, isLocal)
  }

  /** A connection between two nodes' own addresses, as both ends report it. */
  ghost predicate SeenByBoth(fleet: seq<Node>, a: Node, c: Conn, b: Node, d: Conn, isLocal: string -> bool) {
    c.remote.Some? && d.remote.Some? && !isLocal(c.remote.value.ip) && !isLocal(d.remote.value.ip) &&
    Owner(fleet, c.remote.value.ip) == Some(b.name) && Owner(fleet, d.remote.value.ip) == Some(a.name) &&
    a.name != b.name && c.localPort == Some(d.remote.value.port) && d.localPort == Some(c.remote.value.port)
  }

  /** Which of the two ends counts it: an end whose port is no listener of its node. */
  lemma EndsOfConnection(fleet: seq<Node>, a: Node, c: Conn, b: Node, d: Conn, isLocal: string -> bool)
    requires SeenByBoth(fleet, a, c, b, d, isLocal)
    ensures var here, there := PlaceOf(fleet, a, c, isLocal), PlaceOf(fleet, b, d, isLocal);
            here == (if c.localPort.value in a.listeners then ServerSide else EdgeTo(b.name, d.localPort.value)) &&
            there == (if d.localPort.value in b.listeners then ServerSide else EdgeTo(a.name, c.localPort.value))
  {
  }

  // ------------------------------------------------------------------- edges

  /** f"{node}|{name}|{target}|{port}" */
  function EdgeKey(node: string, name: string, target: string, port: int): string {
    node + "|" + name + "|" + target + "|" + IntText(port)
  }

  /** Whatever the process is called, the key tells the edges apart. */
  lemma EdgeKeysDiffer(n: string, x: string, t: string, p: int, m: string, y: string, u: string, q: int)
    requires '|' !in n && '|' !in m && '|' !in t && '|' !in u
    requires EdgeKey(n, x, t, p) == EdgeKey(m, y, u, q)
    ensures n == m && x == y && t == u && p == q
  {
    var a, b := n + "|" + x + "|" + t, m + "|" + y + "|" + u;
    assert EdgeKey(n, x, t, p) == a + "|" + IntText(p) && EdgeKey(m, y, u, q) == b + "|" + IntText(q);
    PlainNumber(p);
    PlainNumber(q);
    LastSeparatorUnique(a, IntText(p), b, IntText(q), '|');
    LastSeparatorUnique(n + "|" + x, t, m + "|" + y, u, '|');
    FirstSeparatorUnique(n, x, m, y, '|');
    IntTextInjective(p, q);
  }

  lemma PlainNumber(p: int)
    ensures '|' !in IntText(p)
  {
  }

  lemma FirstSeparatorUnique(a: string, x: string, b: string, y: string, sep: char)
    requires a + [sep] + x == b + [sep] + y && sep !in a && sep !in b
    ensures a == b && x == y
  {
    var s := a + [sep] + x;
    assert s[|a|] == sep && s == b + [sep] + y && s[|b|] == sep;
    assert forall i :: 0 <= i < |a| ==> s[i] == a[i];
    assert forall i :: 0 <= i < |b| ==> s[i] == b[i];
    assert |a| == |b|;
    assert a == s[..|a|] && b == s[..|a|] && x == s[|a| + 1..] && y == s[|a| + 1..];
  }

  datatype Edge = Edge(from: string, name: string, target: string, port: int, connections: nat, unattributed: nat,
                       sent: int, received: int, rtt: Option<real>, rttMin: Option<real>,
                       retrans: int, txQueue: int, rxQueue: int, stalled: nat)

  datatype Report = Report(node: Node, conn: Conn)

  function NewEdge(from: string, name: string, target: string, port: int): Edge {
    Edge(from, name, target, port, 0, 0, 0, 0, None, None, 0, 0, 0, 0)
  }

  function Larger(x: Option<real>, y: Option<real>): Option<real> {
    if y.None? then x else if x.None? || y.value > x.value then y else x
  }

  function Smaller(x: Option<real>, y: Option<real>): Option<real> {
    if y.None? then x else if x.None? || y.value < x.value then y else x
  }

  /** One connection more on an edge. */
  function Plus(e: Edge, c: Conn): Edge {
    e.(connections := e.connections + 1,
       unattributed := e.unattributed + if c.attributed then 0 else 1,
       sent := e.sent + c.sent, received := e.received + c.received,
       rtt := Larger(e.rtt, c.rtt), rttMin := Smaller(e.rttMin, c.rttMin),
       retrans := e.retrans + c.retrans,
       txQueue := Max(e.txQueue, c.txQueue), rxQueue := Max(e.rxQueue, c.rxQueue),
       stalled := e.stalled + if c.txQueue >= 1 then 1 else 0)
  }

  function PlusAll(e: Edge, cs: seq<Conn>): Edge {
    if cs == [] then e else Plus(PlusAll(e, cs[..|cs| - 1]), cs[|cs| - 1])
  }

  ghost function Stalled(cs: seq<Conn>): set<int> {
    set i | 0 <= i < |cs| && cs[i].txQueue >= 1
  }

  /** What an edge says about the connections it stands for: how many there are and how
      many have bytes waiting; */
  lemma {:induction false} EdgeCounts(from: string, name: string, target: string, port: int, cs: seq<Conn>)
    ensures var e := PlusAll(NewEdge(from, name, target, port), cs);
            e.from == from && e.name == name && e.target == target && e.port == port &&
            e.connections == |cs| && e.stalled == |Stalled(cs)|
  {
    if cs == [] {
    } else {
      var init, c := cs[..|cs| - 1], cs[|cs| - 1];
      EdgeCounts(from, name, target, port, init);
      assert Stalled(cs) == Stalled(init) + if c.txQueue >= 1 then {|init|} else {};
    }
  }

  lemma {:induction false} EdgeLongest(e0: Edge, cs: seq<Conn>)
    requires e0.rtt.None?
    ensures var e := PlusAll(e0, cs);
            (e.rtt.None? <==> forall c :: c in cs ==> c.rtt.None?) &&
            (e.rtt.Some? ==> (exists c :: c in cs && c.rtt == e.rtt) &&
                             forall c :: c in cs && c.rtt.Some? ==> c.rtt.value <= e.rtt.value)
  {
    if cs == [] {
    } else {
      var init, last := cs[..|cs| - 1], cs[|cs| - 1];
      EdgeLongest(e0, init);
      assert cs == init + [last];
    }
  }

  lemma {:induction false} EdgeShortest(e0: Edge, cs: seq<Conn>)
    requires e0.rttMin.None?
    ensures var e := PlusAll(e0, cs);
            (e.rttMin.None? <==> forall c :: c in cs ==> c.rttMin.None?) &&
            (e.rttMin.Some? ==> (exists c :: c in cs && c.rttMin == e.rttMin) &&
                                forall c :: c in cs && c.rttMin.Some? ==> c.rttMin.value >= e.rttMin.value)
  {
    if cs == [] {
    } else {
      var init, last := cs[..|cs| - 1], cs[|cs| - 1];
      EdgeShortest(e0, init);
      assert cs == init + [last];
    }
  }

  /** the longest round trip any of them measured, and the shortest minimum; */
  lemma EdgeRoundTrips(e0: Edge, cs: seq<Conn>)
    requires e0.rtt.None? && e0.rttMin.None?
    ensures var e := PlusAll(e0, cs);
            (e.rtt.None? <==> forall c :: c in cs ==> c.rtt.None?) &&
            (e.rtt.Some? ==> (exists c :: c in cs && c.rtt == e.rtt) &&
                             forall c :: c in cs && c.rtt.Some? ==> c.rtt.value <= e.rtt.value) &&
            (e.rttMin.None? <==> forall c :: c in cs ==> c.rttMin.None?) &&
            (e.rttMin.Some? ==> (exists c :: c in cs && c.rttMin == e.rttMin) &&
                                forall c :: c in cs && c.rttMin.Some? ==> c.rttMin.value >= e.rttMin.value)
  {
    EdgeLongest(e0, cs);
    EdgeShortest(e0, cs);
  }

  /** and the fullest queues, never less than zero. */
  lemma {:induction false} EdgeQueues(e0: Edge, cs: seq<Conn>)
    requires e0.txQueue == 0 && e0.rxQueue == 0
    ensures var e := PlusAll(e0, cs);
            e.txQueue >= 0 && e.rxQueue >= 0 &&
            (forall c :: c in cs ==> c.txQueue <= e.txQueue && c.rxQueue <= e.rxQueue) &&
            (e.txQueue > 0 ==> exists c :: c in cs && c.txQueue == e.txQueue) &&
            (e.rxQueue > 0 ==> exists c :: c in cs && c.rxQueue == e.rxQueue)
  {
    if cs == [] {
    } else {
      var init, last := cs[..|cs| - 1], cs[|cs| - 1];
      EdgeQueues(e0, init);
      assert cs == init + [last];
      assert forall c :: c in cs <==> c in init || c == last;
    }
  }

  // ---------------------------------------------------------- the whole graph

  datatype Peer = Peer(node: string, name: string, remote: string, ports: seq<int>, connections: nat,
                       sent: int, received: int, rtt: Option<real>, retrans: int, stalled: nat)

  const MAX_PORTS: nat := 8

  function NewPeer(node: string, name: string, remote: string): Peer {
    Peer(node, name, remote, [], 0, 0, 0, None, 0, 0)
  }

  function PeerKey(node: string, name: string, ip: string): string {
    node + "|" + name + "|" + ip
  }

  function Met(p: Peer, port: int, c: Conn): Peer {
    p.(connections := p.connections + 1,
       ports := if port !in p.ports && |p.ports| < MAX_PORTS then p.ports + [port] else p.ports,
       sent := p.sent + c.sent, received := p.received + c.received,
       rtt := Larger(p.rtt, c.rtt), retrans := p.retrans + c.retrans,
       stalled := p.stalled + if c.txQueue >= 1 then 1 else 0)
  }

  /** What has been built so far: edges, external peers, and sockets left to the peer. */
  datatype Graph = Graph(edges: map<string, Edge>, external: map<string, Peer>, skipped: nat)

  function EdgeAt(g: Graph, k: string, r: Report, target: string, port: int): Edge {
    if k in g.edges then g.edges[k] else NewEdge(r.node.name, r.conn.name, target, port)
  }

  function PeerAt(g: Graph, k: string, r: Report, ip: string): Peer {
    if k in g.external then g.external[k] else NewPeer(r.node.name, r.conn.name, ip)
  }

  function Taken(g: Graph, r: Report, place: Place): Graph {
    match place
    case Ignored => g
    case ServerSide => g.(skipped := g.skipped + 1)
    case External(peer) =>
      var k := PeerKey(r.node.name, r.conn.name, peer.ip);
      g.(external := g.external[k := Met(PeerAt(g, k, r, peer.ip), peer.port, r.conn)])
    case EdgeTo(target, port) =>
      var k := EdgeKey(r.node.name, r.conn.name, target, port);
      g.(edges := g.edges[k := Plus(EdgeAt(g, k, r, target, port), r.conn)])
  }

  ghost function GraphOf(fleet: seq<Node>, rs: seq<Report>, isLocal: string -> bool): Graph {
    if rs == [] then Graph(map[], map[], 0) else
    var r := rs[|rs| - 1];
    Taken(GraphOf(fleet, rs[..|rs| - 1], isLocal), r, PlaceOf(fleet, r.node, r.conn, isLocal))
  }

  /** The connections of one edge, in order. */
  ghost function Into(fleet: seq<Node>, rs: seq<Report>, isLocal: string -> bool, k: string): seq<Conn> {
    if rs == [] then [] else
    var r, before := rs[|rs| - 1], Into(fleet, rs[..|rs| - 1], isLocal, k);
    match PlaceOf(fleet, r.node, r.conn, isLocal)
    case EdgeTo(target, port) =>
      if EdgeKey(r.node.name, r.conn.name, target, port) == k then before + [r.conn] else before
    case _ => before
  }

  /** The edge of that key stands for these connections. */
  ghost predicate StandsFor(g: Graph, k: string, cs: seq<Conn>) {
    && (k in g.edges <==> cs != [])
    && (k in g.edges ==>
          var e := g.edges[k];
          e == PlusAll(NewEdge(e.from, e.name, e.target, e.port), cs) && k == EdgeKey(e.from, e.name, e.target, e.port))
  }

  lemma PlusKeepsEnds(e: Edge, c: Conn)
    ensures var t := Plus(e, c); t.from == e.from && t.name == e.name && t.target == e.target && t.port == e.port
  {
  }

  lemma PlusAllAppend(e: Edge, cs: seq<Conn>, c: Conn)
    ensures PlusAll(e, cs + [c]) == Plus(PlusAll(e, cs), c)
  {
    assert (cs + [c])[..|cs|] == cs;
  }

  lemma OneMoreStandsFor(g: Graph, r: Report, target: string, port: int, cs: seq<Conn>)
    requires StandsFor(g, EdgeKey(r.node.name, r.conn.name, target, port), cs)
    ensures StandsFor(Taken(g, r, EdgeTo(target, port)), EdgeKey(r.node.name, r.conn.name, target, port), cs + [r.conn])
  {
    var k := EdgeKey(r.node.name, r.conn.name, target, port);
    var e := EdgeAt(g, k, r, target, port);
    PlusKeepsEnds(e, r.conn);
    PlusAllAppend(NewEdge(e.from, e.name, e.target, e.port), cs, r.conn);
  }

  lemma OthersStand(g: Graph, r: Report, place: Place, k: string, cs: seq<Conn>)
    requires StandsFor(g, k, cs)
    requires place.EdgeTo? ==> EdgeKey(r.node.name, r.conn.name, place.target, place.port) != k
    ensures StandsFor(Taken(g, r, place), k, cs)
  {
    assert k in Taken(g, r, place).edges <==> k in g.edges;
  }

  /** There is an edge exactly where some connection leads, and it sums up all of them. */
  lemma {:induction false} EdgesSumUp(fleet: seq<Node>, rs: seq<Report>, isLocal: string -> bool, k: string)
    ensures StandsFor(GraphOf(fleet, rs, isLocal), k, Into(fleet, rs, isLocal, k))
  {
    if rs == [] {
    } else {
      var init, r := rs[..|rs| - 1], rs[|rs| - 1];
      EdgesSumUp(fleet, init, isLocal, k);
      var g, place := GraphOf(fleet, init, isLocal), PlaceOf(fleet, r.node, r.conn, isLocal);
      if place.EdgeTo? && EdgeKey(r.node.name, r.conn.name, place.target, place.port) == k {
        OneMoreStandsFor(g, r, place.target, place.port, Into(fleet, init, isLocal, k));
      } else {
        OthersStand(g, r, place, k, Into(fleet, init, isLocal, k));
      }
    }
  }

  // ------------------------------------------------------------ conservation

  ghost function Sum(m: map<string, nat>): nat
    decreases |m|
  {
    if m == map[] then 0 else
    var k :| k in m;
    m[k] + Sum(m - {k})
  }

  lemma {:induction false} SumTakes(m: map<string, nat>, k: string)
    requires k in m
    ensures Sum(m) == m[k] + Sum(m - {k})
    decreases |m|
  {
    var j :| j in m && Sum(m) == m[j] + Sum(m - {j});
    if j != k {
      SumTakes(m - {j}, k);
      SumTakes(m - {k}, j);
      assert m - {j} - {k} == m - {k} - {j};
    }
  }

  lemma SumUpdate(m: map<string, nat>, k: string, v: nat)
    ensures Sum(m[k := v]) == Sum(m) + v - if k in m then m[k] else 0
  {
    SumTakes(m[k := v], k);
    assert m[k := v] - {k} == m - {k};
    if k in m {
      SumTakes(m, k);
    } else {
      assert m - {k} == m;
    }
  }

  ghost function EdgeTotals(edges: map<string, Edge>): map<string, nat> {
    map k | k in edges :: edges[k].connections
  }

  ghost function PeerTotals(external: map<string, Peer>): map<string, nat> {
    map k | k in external :: external[k].connections
  }

  /** Sockets that are neither malformed, nor local, nor of the node to itself. */
  ghost function Eligible(fleet: seq<Node>, rs: seq<Report>, isLocal: string -> bool): nat {
    if rs == [] then 0 else
    Eligible(fleet, rs[..|rs| - 1], isLocal) +
    if PlaceOf(fleet, rs[|rs| - 1].node, rs[|rs| - 1].conn, isLocal) == Ignored then 0 else 1
  }

  /** Every eligible socket is in exactly one edge, one external peer, or one skip. */
  lemma {:induction false} SocketsAccounted(fleet: seq<Node>, rs: seq<Report>, isLocal: string -> bool)
    ensures var g := GraphOf(fleet, rs, isLocal);
            Sum(EdgeTotals(g.edges)) + Sum(PeerTotals(g.external)) + g.skipped == Eligible(fleet, rs, isLocal)
  {
    if rs == [] {
      assert EdgeTotals(map[]) == map[] && PeerTotals(map[]) == map[];
    } else {
      var init, r := rs[..|rs| - 1], rs[|rs| - 1];
      SocketsAccounted(fleet, init, isLocal);
      TakenCounts(GraphOf(fleet, init, isLocal), r, PlaceOf(fleet, r.node, r.conn, isLocal));
    }
  }

  lemma TakenCounts(g: Graph, r: Report, place: Place)
    ensures var t := Taken(g, r, place);
            Sum(EdgeTotals(t.edges)) + Sum(PeerTotals(t.external)) + t.skipped ==
            Sum(EdgeTotals(g.edges)) + Sum(PeerTotals(g.external)) + g.skipped + if place == Ignored then 0 else 1
  {
    match place
    case Ignored =>
    case ServerSide =>
    case External(peer) =>
      var k := PeerKey(r.node.name, r.conn.name, peer.ip);
      var p := Met(PeerAt(g, k, r, peer.ip), peer.port, r.conn);
      SumUpdate(PeerTotals(g.external), k, p.connections);
      assert PeerTotals(g.external[k := p]) == PeerTotals(g.external)[k := p.connections];
    case EdgeTo(target, port) =>
      var k := EdgeKey(r.node.name, r.conn.name, target, port);
      var e := Plus(EdgeAt(g, k, r, target, port), r.conn);
      SumUpdate(EdgeTotals(g.edges), k, e.connections);
      assert EdgeTotals(g.edges[k := e]) == EdgeTotals(g.edges)[k := e.connections];
  }

  // --------------------------------------------------- edges in and edges out

  ghost function EdgesIn(edges: map<string, Edge>, node: string): set<string> {
    set k | k in edges && edges[k].target == node
  }

  ghost function EdgesOut(edges: map<string, Edge>, node: string): set<string> {
    set k | k in edges && edges[k].from == node
  }

  ghost function TotalIn(edges: map<string, Edge>, fleet: seq<Node>): nat {
    if fleet == [] then 0 else
    TotalIn(edges, fleet[..|fleet| - 1]) + |EdgesIn(edges, fleet[|fleet| - 1].name)|
  }

  ghost function TotalOut(edges: map<string, Edge>, fleet: seq<Node>): nat {
    if fleet == [] then 0 else
    TotalOut(edges, fleet[..|fleet| - 1]) + |EdgesOut(edges, fleet[|fleet| - 1].name)|
  }

  ghost function NamesOf(fleet: seq<Node>): set<string> {
    set i | 0 <= i < |fleet| :: fleet[i].name
  }

  /** Edges whose target, or else whose origin, is among the names. */
  ghost function Ending(edges: map<string, Edge>, names: set<string>, incoming: bool): set<string> {
    set k | k in edges && (if incoming then edges[k].target else edges[k].from) in names
  }

  lemma EndingAppend(edges: map<string, Edge>, names: set<string>, name: string, incoming: bool)
    requires name !in names
    ensures var one := if incoming then EdgesIn(edges, name) else EdgesOut(edges, name);
            |Ending(edges, names + {name}, incoming)| == |Ending(edges, names, incoming)| + |one|
  {
    var one := if incoming then EdgesIn(edges, name) else EdgesOut(edges, name);
    assert Ending(edges, names + {name}, incoming) == Ending(edges, names, incoming) + one;
    assert Ending(edges, names, incoming) !! one;
  }

  lemma {:induction false} DegreesSumUp(edges: map<string, Edge>, fleet: seq<Node>)
    requires DistinctNames(fleet)
    ensures TotalIn(edges, fleet) == |Ending(edges, NamesOf(fleet), true)|
    ensures TotalOut(edges, fleet) == |Ending(edges, NamesOf(fleet), false)|
  {
    if fleet == [] {
      assert Ending(edges, {}, true) == {} && Ending(edges, {}, false) == {};
    } else {
      var init, last := fleet[..|fleet| - 1], fleet[|fleet| - 1];
      DegreesSumUp(edges, init);
      NamesAppend(init, last);
      assert fleet == init + [last];
      EndingAppend(edges, NamesOf(init), last.name, true);
      EndingAppend(edges, NamesOf(init), last.name, false);
    }
  }

  lemma NamesAppend(fleet: seq<Node>, node: Node)
    ensures NamesOf(fleet + [node]) == NamesOf(fleet) + {node.name}
  {
    var all := fleet + [node];
    forall x | x in NamesOf(fleet) ensures x in NamesOf(all) {
      var i :| 0 <= i < |fleet| && fleet[i].name == x;
      assert all[i].name == x;
    }
    assert all[|fleet|].name == node.name;
  }

  ghost predicate OfFleet(fleet: seq<Node>, rs: seq<Report>) {
    forall i :: 0 <= i < |rs| ==> rs[i].node in fleet
  }

  lemma {:induction false} EdgesWithinFleet(fleet: seq<Node>, rs: seq<Report>, isLocal: string -> bool)
    requires OfFleet(fleet, rs)
    ensures forall k :: k in GraphOf(fleet, rs, isLocal).edges ==>
              GraphOf(fleet, rs, isLocal).edges[k].from in NamesOf(fleet) &&
              GraphOf(fleet, rs, isLocal).edges[k].target in NamesOf(fleet)
  {
    if rs == [] {
    } else {
      var init, r := rs[..|rs| - 1], rs[|rs| - 1];
      EdgesWithinFleet(fleet, init, isLocal);
      assert r.node in fleet;
      if r.conn.remote.Some? {
        OwnerMeaning(fleet, r.conn.remote.value.ip);
      }
    }
  }

  /** Both degrees add up to the number of edges. */
  lemma DegreesMatch(fleet: seq<Node>, rs: seq<Report>, isLocal: string -> bool)
    requires DistinctNames(fleet) && OfFleet(fleet, rs)
    ensures var edges := GraphOf(fleet, rs, isLocal).edges;
            TotalIn(edges, fleet) == |edges| && TotalOut(edges, fleet) == |edges|
  {
    var edges := GraphOf(fleet, rs, isLocal).edges;
    EdgesWithinFleet(fleet, rs, isLocal);
    DegreesSumUp(edges, fleet);
    assert Ending(edges, NamesOf(fleet), true) == edges.Keys == Ending(edges, NamesOf(fleet), false);
  }

  // ----------------------------------------------------------------- building

  function ReportsOf(node: Node, n: nat): seq<Report>
    requires n <= |node.established|
  {
    if n == 0 then [] else
    ReportsOf(node, n - 1) +
    if node.established[n - 1].Some? then [Report(node, node.established[n - 1].value)] else []
  }

  /** Every socket the graph is built from, in order. */
  function Reports(fleet: seq<Node>): seq<Report> {
    if fleet == [] then [] else
    var node := fleet[|fleet| - 1];
    Reports(fleet[..|fleet| - 1]) +
    if node.online && node.readable then ReportsOf(node, |node.established|) else []
  }

  lemma {:induction false} ReportsAreOfNode(node: Node, n: nat)
    requires n <= |node.established|
    ensures forall i :: 0 <= i < |ReportsOf(node, n)| ==> ReportsOf(node, n)[i].node == node
  {
    if n == 0 {
    } else {
      ReportsAreOfNode(node, n - 1);
    }
  }

  lemma {:induction false} ReportsAreOfFleet(fleet: seq<Node>)
    ensures OfFleet(fleet, Reports(fleet))
  {
    if fleet == [] {
    } else {
      var init, node := fleet[..|fleet| - 1], fleet[|fleet| - 1];
      ReportsAreOfFleet(init);
      ReportsAreOfNode(node, |node.established|);
      assert fleet == init + [node];
    }
  }

  // ------------------------------------------------------ each connection once

  /** How many connections the edges of a fleet's graph stand for. */
  ghost function EdgeConnections(fleet: seq<Node>, isLocal: string -> bool): nat {
    Sum(EdgeTotals(GraphOf(fleet, Reports(fleet), isLocal).edges))
  }

  function Weight(fleet: seq<Node>, r: Report, isLocal: string -> bool): nat {
    if PlaceOf(fleet, r.node, r.conn, isLocal).EdgeTo? then 1 else 0
  }

  ghost function Leading(fleet: seq<Node>, rs: seq<Report>, isLocal: string -> bool): nat {
    if rs == [] then 0 else
    Leading(fleet, rs[..|rs| - 1], isLocal) + Weight(fleet, rs[|rs| - 1], isLocal)
  }

  lemma TakenLeads(g: Graph, r: Report, place: Place)
    ensures Sum(EdgeTotals(Taken(g, r, place).edges)) == Sum(EdgeTotals(g.edges)) + if place.EdgeTo? then 1 else 0
  {
    if place.EdgeTo? {
      var k := EdgeKey(r.node.name, r.conn.name, place.target, place.port);
      var e := Plus(EdgeAt(g, k, r, place.target, place.port), r.conn);
      SumUpdate(EdgeTotals(g.edges), k, e.connections);
      assert EdgeTotals(g.edges[k := e]) == EdgeTotals(g.edges)[k := e.connections];
    }
  }

  lemma {:induction false} EdgesLead(fleet: seq<Node>, rs: seq<Report>, isLocal: string -> bool)
    ensures Sum(EdgeTotals(GraphOf(fleet, rs, isLocal).edges)) == Leading(fleet, rs, isLocal)
  {
    if rs == [] {
      assert EdgeTotals(map[]) == map[];
    } else {
      var init, r := rs[..|rs| - 1], rs[|rs| - 1];
      EdgesLead(fleet, init, isLocal);
      TakenLeads(GraphOf(fleet, init, isLocal), r, PlaceOf(fleet, r.node, r.conn, isLocal));
    }
  }

  lemma {:induction false} LeadingConcat(fleet: seq<Node>, xs: seq<Report>, ys: seq<Report>, isLocal: string -> bool)
    ensures Leading(fleet, xs + ys, isLocal) == Leading(fleet, xs, isLocal) + Leading(fleet, ys, isLocal)
  {
    if ys == [] {
      assert xs + ys == xs;
    } else {
      LeadingConcat(fleet, xs, ys[..|ys| - 1], isLocal);
      assert (xs + ys)[..|xs + ys| - 1] == xs + ys[..|ys| - 1];
    }
  }

  ghost predicate SameOwners(fleet: seq<Node>, other: seq<Node>) {
    forall ip :: Owner(fleet, ip) == Owner(other, ip)
  }

  lemma {:induction false} LeadingSame(fleet: seq<Node>, other: seq<Node>, rs: seq<Report>, isLocal: string -> bool)
    requires SameOwners(fleet, other)
    ensures Leading(fleet, rs, isLocal) == Leading(other, rs, isLocal)
  {
    if rs == [] {
    } else {
      LeadingSame(fleet, other, rs[..|rs| - 1], isLocal);
    }
  }

  /** A node that does not report one of its sockets. */
  function Silent(node: Node, s: nat): Node
    requires s < |node.established|
  {
    node.(established := node.established[s := None])
  }

  function SilentAt(fleet: seq<Node>, n: nat, s: nat): (r: seq<Node>)
    requires n < |fleet| && s < |fleet[n].established|
    ensures |r| == |fleet|
  {
    fleet[n := Silent(fleet[n], s)]
  }

  lemma {:induction false} OwnerBySame(fleet: seq<Node>, other: seq<Node>, ip: string)
    requires |fleet| == |other|
    requires forall i :: 0 <= i < |fleet| ==> fleet[i].name == other[i].name && fleet[i].addresses == other[i].addresses
    ensures Owner(fleet, ip) == Owner(other, ip)
  {
    if fleet == [] {
    } else {
      OwnerBySame(fleet[..|fleet| - 1], other[..|other| - 1], ip);
    }
  }

  lemma SilentOwners(fleet: seq<Node>, n: nat, s: nat)
    requires n < |fleet| && s < |fleet[n].established|
    ensures SameOwners(fleet, SilentAt(fleet, n, s))
  {
    forall ip ensures Owner(fleet, ip) == Owner(SilentAt(fleet, n, s), ip) {
      OwnerBySame(fleet, SilentAt(fleet, n, s), ip);
    }
  }

  lemma LeadingOne(fleet: seq<Node>, r: Report, isLocal: string -> bool)
    ensures Leading(fleet, [r], isLocal) == Weight(fleet, r, isLocal) && Leading(fleet, [], isLocal) == 0
  {
    assert [r][..0] == [];
  }

  function SocketWeight(fleet: seq<Node>, node: Node, s: nat, isLocal: string -> bool): nat
    requires s < |node.established|
  {
    if node.established[s].Some? then Weight(fleet, Report(node, node.established[s].value), isLocal) else 0
  }

  lemma SilentWeight(fleet: seq<Node>, other: seq<Node>, node: Node, s: nat, i: nat, isLocal: string -> bool)
    requires SameOwners(fleet, other) && s < |node.established| && i < |node.established|
    ensures SocketWeight(other, Silent(node, s), i, isLocal) ==
            if i == s then 0 else SocketWeight(fleet, node, i, isLocal)
  {
    if i != s && node.established[i].Some? && node.established[i].value.remote.Some? {
      var ip := node.established[i].value.remote.value.ip;
      assert Owner(fleet, ip) == Owner(other, ip);
    }
  }

  lemma LeadingLast(fleet: seq<Node>, node: Node, n: nat, isLocal: string -> bool)
    requires 0 < n <= |node.established|
    ensures Leading(fleet, ReportsOf(node, n), isLocal) ==
            Leading(fleet, ReportsOf(node, n - 1), isLocal) + SocketWeight(fleet, node, n - 1, isLocal)
  {
    if node.established[n - 1].Some? {
      var r := Report(node, node.established[n - 1].value);
      LeadingConcat(fleet, ReportsOf(node, n - 1), [r], isLocal);
      LeadingOne(fleet, r, isLocal);
    } else {
      assert ReportsOf(node, n) == ReportsOf(node, n - 1);
    }
  }

  ghost function SocketWeights(fleet: seq<Node>, node: Node, n: nat, isLocal: string -> bool): nat
    requires n <= |node.established|
  {
    if n == 0 then 0 else SocketWeights(fleet, node, n - 1, isLocal) + SocketWeight(fleet, node, n - 1, isLocal)
  }

  lemma {:induction false} LeadingSockets(fleet: seq<Node>, node: Node, n: nat, isLocal: string -> bool)
    requires n <= |node.established|
    ensures Leading(fleet, ReportsOf(node, n), isLocal) == SocketWeights(fleet, node, n, isLocal)
  {
    if n == 0 {
    } else {
      LeadingSockets(fleet, node, n - 1, isLocal);
      LeadingLast(fleet, node, n, isLocal);
    }
  }

  lemma {:induction false} SilentNode(fleet: seq<Node>, other: seq<Node>, node: Node, s: nat, n: nat,
                                      isLocal: string -> bool)
    requires SameOwners(fleet, other) && s < |node.established| && n <= |node.established|
    ensures SocketWeights(fleet, node, n, isLocal) ==
            SocketWeights(other, Silent(node, s), n, isLocal) +
            if s < n then SocketWeight(fleet, node, s, isLocal) else 0
  {
    if n == 0 {
    } else {
      SilentNode(fleet, other, node, s, n - 1, isLocal);
      SilentWeight(fleet, other, node, s, n - 1, isLocal);
    }
  }

  /** The reports of the last node after those of the others. */
  lemma LeadingNode(all: seq<Node>, fleet: seq<Node>, isLocal: string -> bool)
    requires fleet != []
    ensures var node := fleet[|fleet| - 1];
            Leading(all, Reports(fleet), isLocal) ==
            Leading(all, Reports(fleet[..|fleet| - 1]), isLocal) +
            if node.online && node.readable then Leading(all, ReportsOf(node, |node.established|), isLocal) else 0
  {
    var node, before := fleet[|fleet| - 1], Reports(fleet[..|fleet| - 1]);
    if node.online && node.readable {
      LeadingConcat(all, before, ReportsOf(node, |node.established|), isLocal);
    } else {
      assert Reports(fleet) == before;
    }
  }

  lemma {:induction false} SilentFleet(all: seq<Node>, other: seq<Node>, fleet: seq<Node>, n: nat, s: nat,
                                       isLocal: string -> bool)
    requires SameOwners(all, other) && Reported(fleet, n, s)
    ensures Leading(all, Reports(fleet), isLocal) ==
            Leading(other, Reports(SilentAt(fleet, n, s)), isLocal) + Weight(all, ReportAt(fleet, n, s), isLocal)
  {
    var init, node, quiet := fleet[..|fleet| - 1], fleet[|fleet| - 1], SilentAt(fleet, n, s);
    LeadingNode(all, fleet, isLocal);
    LeadingNode(other, quiet, isLocal);
    if n == |fleet| - 1 {
      assert quiet[..|quiet| - 1] == init;
      LeadingSame(all, other, Reports(init), isLocal);
      LeadingSockets(all, node, |node.established|, isLocal);
      LeadingSockets(other, Silent(node, s), |node.established|, isLocal);
      SilentNode(all, other, node, s, |node.established|, isLocal);
    } else {
      assert quiet[..|quiet| - 1] == SilentAt(init, n, s);
      LeadingSame(all, other, ReportsOf(node, |node.established|), isLocal);
      SilentFleet(all, other, init, n, s, isLocal);
    }
  }

  /** The graph sees the socket. */
  predicate Reported(fleet: seq<Node>, n: nat, s: nat) {
    n < |fleet| && fleet[n].online && fleet[n].readable &&
    s < |fleet[n].established| && fleet[n].established[s].Some?
  }

  function ReportAt(fleet: seq<Node>, n: nat, s: nat): Report
    requires Reported(fleet, n, s)
  {
    Report(fleet[n], fleet[n].established[s].value)
  }

  /** What one socket adds to the connections of the whole graph. */
  lemma SocketAdds(fleet: seq<Node>, n: nat, s: nat, isLocal: string -> bool)
    requires Reported(fleet, n, s)
    ensures EdgeConnections(fleet, isLocal) ==
            EdgeConnections(SilentAt(fleet, n, s), isLocal) + Weight(fleet, ReportAt(fleet, n, s), isLocal)
  {
    var other := SilentAt(fleet, n, s);
    EdgesLead(fleet, Reports(fleet), isLocal);
    EdgesLead(other, Reports(other), isLocal);
    SilentOwners(fleet, n, s);
    SilentFleet(fleet, other, fleet, n, s, isLocal);
  }

  /** A connection that both ends report adds exactly one to the connections of the
      graph's edges exactly when one of its two ports is a listener of its node and the
      other is not; nothing when both are, and two when neither is. */
  lemma CountedOnce(fleet: seq<Node>, n: nat, s: nat, m: nat, t: nat, isLocal: string -> bool)
    requires Reported(fleet, n, s) && Reported(fleet, m, t)
    requires SeenByBoth(fleet, ReportAt(fleet, n, s).node, ReportAt(fleet, n, s).conn,
                        ReportAt(fleet, m, t).node, ReportAt(fleet, m, t).conn, isLocal)
    ensures n != m
    ensures var (here, there) := (ReportAt(fleet, n, s), ReportAt(fleet, m, t));
            EdgeConnections(fleet, isLocal) ==
            EdgeConnections(SilentAt(SilentAt(fleet, n, s), m, t), isLocal) +
            (if here.conn.localPort.value in here.node.listeners then 0 else 1) +
            (if there.conn.localPort.value in there.node.listeners then 0 else 1)
  {
    var here, there, quiet := ReportAt(fleet, n, s), ReportAt(fleet, m, t), SilentAt(fleet, n, s);
    EndsOfConnection(fleet, here.node, here.conn, there.node, there.conn, isLocal);
    SocketAdds(fleet, n, s, isLocal);
    SilentOwners(fleet, n, s);
    SocketAdds(quiet, m, t, isLocal);
  }

  // Two nodes and one connection between them, ports 1000 and 2000.

  function TwoNodes(listenA: set<int>, listenB: set<int>): seq<Node> {
    [Node("a", true, true, ["10.0.0.1"], listenA, [Some(Between("10.0.0.2", 2000, 1000))]),
     Node("b", true, true, ["10.0.0.2"], listenB, [Some(Between("10.0.0.1", 1000, 2000))])]
  }

  function Between(ip: string, port: int, local: int): Conn {
    Conn(Some(Addr(ip, port)), Some(local), "p", true, 0, 0, None, None, 0, 0, 0)
  }

  lemma TwoNodesCount(listenA: set<int>, listenB: set<int>)
    ensures EdgeConnections(TwoNodes(listenA, listenB), _ => false) ==
            (if 1000 in listenA then 0 else 1) + (if 2000 in listenB then 0 else 1)
  {
    var fleet := TwoNodes(listenA, listenB);
    assert fleet[..1][..0] == [];
    assert Owner(fleet[..1], "10.0.0.1") == Some("a") && Owner(fleet[..1], "10.0.0.2") == None by {
      assert fleet[..1][0].addresses[0] == "10.0.0.1" && "10.0.0.1"[7] != "10.0.0.2"[7];
    }
    CountedOnce(fleet, 0, 0, 1, 0, _ => false);
    NothingReported(SilentAt(SilentAt(fleet, 0, 0), 1, 0), _ => false);
  }

  lemma NoReports(node: Node)
    requires node.established == [None]
    ensures ReportsOf(node, |node.established|) == []
  {
    assert ReportsOf(node, 0) == [];
  }

  lemma NothingReported(fleet: seq<Node>, isLocal: string -> bool)
    requires |fleet| == 2 && forall i :: 0 <= i < 2 ==> fleet[i].established == [None]
    ensures EdgeConnections(fleet, isLocal) == 0
  {
    NoReports(fleet[0]);
    NoReports(fleet[1]);
    assert fleet[..1][..0] == [] && fleet[..1][0] == fleet[0];
    assert Reports(fleet[..0]) == [];
    assert Reports(fleet[..1]) == [];
    assert Reports(fleet) == [];
    EdgesLead(fleet, [], isLocal);
  }

  /** Both ports are listeners: the connection is in no edge. */
  lemma BothListening()
    ensures EdgeConnections(TwoNodes({1000}, {2000}), _ => false) == 0
  {
    TwoNodesCount({1000}, {2000});
  }

  /** Neither is: it is counted twice. */
  lemma NeitherListening()
    ensures EdgeConnections(TwoNodes({}, {}), _ => false) == 2
  {
    TwoNodesCount({}, {});
  }

  // ------------------------------------- what the graph must be, socket by socket

  ghost function Entries(node: Node, es: seq<Option<Conn>>): seq<Report> {
    if es == [] then [] else
    (if es[0].Some? then [Report(node, es[0].value)] else []) + Entries(node, es[1..])
  }

  ghost function SocketsOf(node: Node): seq<Report> {
    if node.online && node.readable then Entries(node, node.established) else []
  }

  /** The sockets of the nodes that are online and could read theirs, in order. */
  ghost function AllSockets(fleet: seq<Node>): seq<Report> {
    if fleet == [] then [] else SocketsOf(fleet[0]) + AllSockets(fleet[1..])
  }

  /** The first node that has the address is called so. */
  ghost predicate OwnedBy(fleet: seq<Node>, ip: string, name: string) {
    exists i :: 0 <= i < |fleet| && ip in fleet[i].addresses && fleet[i].name == name &&
                forall j :: 0 <= j < i ==> ip !in fleet[j].addresses
  }

  ghost predicate Listens(r: Report) {
    r.conn.localPort.Some? && r.conn.localPort.value in r.node.listeners
  }

  /** The socket leads to that port of another node, and not from a listener. */
  ghost predicate LeadsTo(fleet: seq<Node>, isLocal: string -> bool, r: Report, target: string, port: int) {
    && r.conn.remote.Some? && r.conn.remote.value.port == port && !isLocal(r.conn.remote.value.ip)
    && OwnedBy(fleet, r.conn.remote.value.ip, target) && target != r.node.name && !Listens(r)
  }

  /** It leads to another node, but from a listener: the peer's end counts it. */
  ghost predicate LeftToPeer(fleet: seq<Node>, isLocal: string -> bool, r: Report) {
    && r.conn.remote.Some? && !isLocal(r.conn.remote.value.ip) && Listens(r)
    && exists name :: OwnedBy(fleet, r.conn.remote.value.ip, name) && name != r.node.name
  }

  /** It leads to an address no node has. */
  ghost predicate LeadsOut(fleet: seq<Node>, isLocal: string -> bool, r: Report) {
    && r.conn.remote.Some? && !isLocal(r.conn.remote.value.ip)
    && forall i :: 0 <= i < |fleet| ==> r.conn.remote.value.ip !in fleet[i].addresses
  }

  ghost predicate GoesInto(fleet: seq<Node>, isLocal: string -> bool, k: string, r: Report) {
    exists target, port :: LeadsTo(fleet, isLocal, r, target, port) &&
                           k == r.node.name + "|" + r.conn.name + "|" + target + "|" + IntText(port)
  }

  ghost predicate GoesOut(fleet: seq<Node>, isLocal: string -> bool, k: string, r: Report) {
    LeadsOut(fleet, isLocal, r) && k == r.node.name + "|" + r.conn.name + "|" + r.conn.remote.value.ip
  }

  ghost function SumOf(rs: seq<Report>, of: Conn -> int): int {
    if rs == [] then 0 else SumOf(rs[..|rs| - 1], of) + of(rs[|rs| - 1].conn)
  }

  ghost function Sent(): Conn -> int { (c: Conn) => c.sent }

  ghost function Received(): Conn -> int { (c: Conn) => c.received }

  ghost function Retransmitted(): Conn -> int { (c: Conn) => c.retrans }

  ghost function Unattributed(): Report -> bool { (r: Report) => !r.conn.attributed }

  ghost function Stuck(): Report -> bool { (r: Report) => r.conn.txQueue >= 1 }

  ghost predicate Longest(t: Option<real>, rs: seq<Report>) {
    && (t.None? <==> forall i :: 0 <= i < |rs| ==> rs[i].conn.rtt.None?)
    && (t.Some? ==> exists i :: 0 <= i < |rs| && rs[i].conn.rtt == t)
    && (t.Some? ==> forall i :: 0 <= i < |rs| && rs[i].conn.rtt.Some? ==> rs[i].conn.rtt.value <= t.value)
  }

  ghost predicate Shortest(t: Option<real>, rs: seq<Report>) {
    && (t.None? <==> forall i :: 0 <= i < |rs| ==> rs[i].conn.rttMin.None?)
    && (t.Some? ==> exists i :: 0 <= i < |rs| && rs[i].conn.rttMin == t)
    && (t.Some? ==> forall i :: 0 <= i < |rs| && rs[i].conn.rttMin.Some? ==> t.value <= rs[i].conn.rttMin.value)
  }

  ghost predicate Fullest(tx: int, rx: int, rs: seq<Report>) {
    && tx >= 0 && rx >= 0
    && (forall i :: 0 <= i < |rs| ==> rs[i].conn.txQueue <= tx && rs[i].conn.rxQueue <= rx)
    && (tx > 0 ==> exists i :: 0 <= i < |rs| && rs[i].conn.txQueue == tx)
    && (rx > 0 ==> exists i :: 0 <= i < |rs| && rs[i].conn.rxQueue == rx)
  }

  /** The edge is called after its first socket and sums up all of them. */
  ghost predicate SumsUp(e: Edge, fleet: seq<Node>, isLocal: string -> bool, rs: seq<Report>) {
    && rs != [] && e.from == rs[0].node.name && e.name == rs[0].conn.name
    && LeadsTo(fleet, isLocal, rs[0], e.target, e.port)
    && e.connections == |rs|
    && e.unattributed == |Filter(rs, Unattributed())|
    && e.stalled == |Filter(rs, Stuck())|
    && e.sent == SumOf(rs, Sent()) && e.received == SumOf(rs, Received()) && e.retrans == SumOf(rs, Retransmitted())
    && Longest(e.rtt, rs) && Shortest(e.rttMin, rs) && Fullest(e.txQueue, e.rxQueue, rs)
  }

  /** The remote ports, in the order they were first met, as many as fit. */
  ghost function PortsMet(rs: seq<Report>): seq<int> {
    if rs == [] || rs[|rs| - 1].conn.remote.None? then [] else
    var before, port := PortsMet(rs[..|rs| - 1]), rs[|rs| - 1].conn.remote.value.port;
    if port in before || |before| == 8 then before else before + [port]
  }

  ghost predicate SumsUpPeer(p: Peer, rs: seq<Report>) {
    && rs != [] && p.node == rs[0].node.name && p.name == rs[0].conn.name
    && rs[0].conn.remote.Some? && p.remote == rs[0].conn.remote.value.ip
    && p.connections == |rs| && p.ports == PortsMet(rs)
    && p.stalled == |Filter(rs, Stuck())|
    && p.sent == SumOf(rs, Sent()) && p.received == SumOf(rs, Received()) && p.retrans == SumOf(rs, Retransmitted())
    && Longest(p.rtt, rs)
  }

  ghost function IntoKey(fleet: seq<Node>, isLocal: string -> bool, k: string): Report -> bool {
    (r: Report) => GoesInto(fleet, isLocal, k, r)
  }

  ghost function OutKey(fleet: seq<Node>, isLocal: string -> bool, k: string): Report -> bool {
    (r: Report) => GoesOut(fleet, isLocal, k, r)
  }

  ghost function Left(fleet: seq<Node>, isLocal: string -> bool): Report -> bool {
    (r: Report) => LeftToPeer(fleet, isLocal, r)
  }

  /** An edge for each key some socket goes into, a peer for each it goes out by, each
      summing up just those sockets; and how many are left to the peer. */
  ghost predicate EdgeRight(g: Graph, fleet: seq<Node>, isLocal: string -> bool, all: seq<Report>, k: string) {
    var rs := Filter(all, IntoKey(fleet, isLocal, k));
    (k in g.edges <==> rs != []) && (k in g.edges ==> SumsUp(g.edges[k], fleet, isLocal, rs))
  }

  ghost predicate PeerRight(g: Graph, fleet: seq<Node>, isLocal: string -> bool, all: seq<Report>, k: string) {
    var rs := Filter(all, OutKey(fleet, isLocal, k));
    (k in g.external <==> rs != []) && (k in g.external ==> SumsUpPeer(g.external[k], rs))
  }

  ghost predicate GraphRight(g: Graph, fleet: seq<Node>, isLocal: string -> bool, all: seq<Report>) {
    && (forall k :: EdgeRight(g, fleet, isLocal, all, k))
    && (forall k :: PeerRight(g, fleet, isLocal, all, k))
    && g.skipped == |Filter(all, Left(fleet, isLocal))|
  }

  lemma OwnerIs(fleet: seq<Node>, ip: string, name: string)
    ensures Owner(fleet, ip) == Some(name) <==> OwnedBy(fleet, ip, name)
  {
    OwnerMeaning(fleet, ip);
    if OwnedBy(fleet, ip, name) {
      var i :| 0 <= i < |fleet| && ip in fleet[i].addresses && fleet[i].name == name &&
        forall j :: 0 <= j < i ==> ip !in fleet[j].addresses;
      assert Owner(fleet, ip).Some?;
    }
  }

  lemma PlaceIs(fleet: seq<Node>, isLocal: string -> bool, r: Report)
    ensures var place := PlaceOf(fleet, r.node, r.conn, isLocal);
            && (forall t, p :: place == EdgeTo(t, p) <==> LeadsTo(fleet, isLocal, r, t, p))
            && (place.External? <==> LeadsOut(fleet, isLocal, r))
            && (place.External? ==> place.peer == r.conn.remote.value)
            && (place == ServerSide <==> LeftToPeer(fleet, isLocal, r))
  {
    if r.conn.remote.Some? {
      var ip := r.conn.remote.value.ip;
      OwnerMeaning(fleet, ip);
      forall name ensures Owner(fleet, ip) == Some(name) <==> OwnedBy(fleet, ip, name) {
        OwnerIs(fleet, ip, name);
      }
    }
  }

  lemma FilterAppend<T>(s: seq<T>, x: T, keep: T -> bool)
    ensures Filter(s + [x], keep) == Filter(s, keep) + if keep(x) then [x] else []
  {
    assert (s + [x])[..|s|] == s;
  }

  lemma SumAppend(rs: seq<Report>, r: Report, of: Conn -> int)
    ensures SumOf(rs + [r], of) == SumOf(rs, of) + of(r.conn)
  {
    assert (rs + [r])[..|rs|] == rs;
  }

  lemma FiguresAppend(rs: seq<Report>, r: Report)
    ensures |Filter(rs + [r], Unattributed())| == |Filter(rs, Unattributed())| + if r.conn.attributed then 0 else 1
    ensures |Filter(rs + [r], Stuck())| == |Filter(rs, Stuck())| + if r.conn.txQueue >= 1 then 1 else 0
    ensures SumOf(rs + [r], Sent()) == SumOf(rs, Sent()) + r.conn.sent
    ensures SumOf(rs + [r], Received()) == SumOf(rs, Received()) + r.conn.received
    ensures SumOf(rs + [r], Retransmitted()) == SumOf(rs, Retransmitted()) + r.conn.retrans
  {
    FilterAppend(rs, r, Unattributed());
    FilterAppend(rs, r, Stuck());
    SumAppend(rs, r, Sent());
    SumAppend(rs, r, Received());
    SumAppend(rs, r, Retransmitted());
  }

  lemma LongestAppend(t: Option<real>, rs: seq<Report>, r: Report)
    requires Longest(t, rs)
    ensures Longest(Larger(t, r.conn.rtt), rs + [r])
  {
    var all := rs + [r];
    assert all[|rs|] == r && forall i :: 0 <= i < |rs| ==> all[i] == rs[i];
    if t.Some? {
      var i :| 0 <= i < |rs| && rs[i].conn.rtt == t;
      assert all[i].conn.rtt == t;
    }
  }

  lemma ShortestAppend(t: Option<real>, rs: seq<Report>, r: Report)
    requires Shortest(t, rs)
    ensures Shortest(Smaller(t, r.conn.rttMin), rs + [r])
  {
    var all := rs + [r];
    assert all[|rs|] == r && forall i :: 0 <= i < |rs| ==> all[i] == rs[i];
    if t.Some? {
      var i :| 0 <= i < |rs| && rs[i].conn.rttMin == t;
      assert all[i].conn.rttMin == t;
    }
  }

  lemma FullestAppend(tx: int, rx: int, rs: seq<Report>, r: Report)
    requires Fullest(tx, rx, rs)
    ensures Fullest(Max(tx, r.conn.txQueue), Max(rx, r.conn.rxQueue), rs + [r])
  {
    var all := rs + [r];
    assert all[|rs|] == r && forall i :: 0 <= i < |rs| ==> all[i] == rs[i];
    if i :| 0 <= i < |rs| && rs[i].conn.txQueue == tx {
      assert all[i].conn.txQueue == tx;
    }
    if i :| 0 <= i < |rs| && rs[i].conn.rxQueue == rx {
      assert all[i].conn.rxQueue == rx;
    }
  }

  /** The figures of an edge, whatever it is called. */
  ghost predicate Adds(e: Edge, rs: seq<Report>) {
    && e.connections == |rs|
    && e.unattributed == |Filter(rs, Unattributed())| && e.stalled == |Filter(rs, Stuck())|
    && e.sent == SumOf(rs, Sent()) && e.received == SumOf(rs, Received()) && e.retrans == SumOf(rs, Retransmitted())
    && Longest(e.rtt, rs) && Shortest(e.rttMin, rs) && Fullest(e.txQueue, e.rxQueue, rs)
  }

  lemma PlusAdds(e: Edge, rs: seq<Report>, r: Report)
    requires Adds(e, rs)
    ensures Adds(Plus(e, r.conn), rs + [r])
  {
    FiguresAppend(rs, r);
    LongestAppend(e.rtt, rs, r);
    ShortestAppend(e.rttMin, rs, r);
    FullestAppend(e.txQueue, e.rxQueue, rs, r);
  }

  ghost predicate PeerAdds(p: Peer, rs: seq<Report>) {
    && p.connections == |rs| && p.stalled == |Filter(rs, Stuck())|
    && p.sent == SumOf(rs, Sent()) && p.received == SumOf(rs, Received()) && p.retrans == SumOf(rs, Retransmitted())
    && Longest(p.rtt, rs) && p.ports == PortsMet(rs)
  }

  lemma MetAdds(p: Peer, rs: seq<Report>, r: Report)
    requires PeerAdds(p, rs) && r.conn.remote.Some?
    ensures PeerAdds(Met(p, r.conn.remote.value.port, r.conn), rs + [r])
  {
    FiguresAppend(rs, r);
    LongestAppend(p.rtt, rs, r);
    PortsFew(rs);
    assert (rs + [r])[..|rs|] == rs;
  }

  lemma {:induction false} PortsFew(rs: seq<Report>)
    ensures |PortsMet(rs)| <= 8
  {
    if rs != [] {
      PortsFew(rs[..|rs| - 1]);
    }
  }

  lemma EdgeGrows(g: Graph, fleet: seq<Node>, isLocal: string -> bool, rs: seq<Report>, r: Report, k: string,
                  target: string, port: int)
    requires LeadsTo(fleet, isLocal, r, target, port) && k == EdgeKey(r.node.name, r.conn.name, target, port)
    requires (k in g.edges <==> rs != []) && (k in g.edges ==> SumsUp(g.edges[k], fleet, isLocal, rs))
    ensures var t := Taken(g, r, EdgeTo(target, port));
            k in t.edges && SumsUp(t.edges[k], fleet, isLocal, rs + [r])
  {
    var e := EdgeAt(g, k, r, target, port);
    assert rs == [] ==> Adds(e, []);
    PlusAdds(e, rs, r);
    assert rs != [] ==> (rs + [r])[0] == rs[0];
  }

  lemma EdgeElsewhere(g: Graph, r: Report, place: Place, k: string)
    requires place.EdgeTo? ==> k != EdgeKey(r.node.name, r.conn.name, place.target, place.port)
    ensures var t := Taken(g, r, place);
            (k in t.edges <==> k in g.edges) && (k in g.edges ==> t.edges[k] == g.edges[k])
  {
  }

  lemma EdgeStep(g: Graph, fleet: seq<Node>, isLocal: string -> bool, all: seq<Report>, r: Report, k: string)
    requires EdgeRight(g, fleet, isLocal, all, k)
    ensures EdgeRight(Taken(g, r, PlaceOf(fleet, r.node, r.conn, isLocal)), fleet, isLocal, all + [r], k)
  {
    var place := PlaceOf(fleet, r.node, r.conn, isLocal);
    var rs := Filter(all, IntoKey(fleet, isLocal, k));
    PlaceIs(fleet, isLocal, r);
    FilterAppend(all, r, IntoKey(fleet, isLocal, k));
    if GoesInto(fleet, isLocal, k, r) {
      var target, port :| LeadsTo(fleet, isLocal, r, target, port) &&
        k == r.node.name + "|" + r.conn.name + "|" + target + "|" + IntText(port);
      assert place == EdgeTo(target, port);
      EdgeGrows(g, fleet, isLocal, rs, r, k, target, port);
    } else {
      if place.EdgeTo? {
        assert LeadsTo(fleet, isLocal, r, place.target, place.port);
      }
      EdgeElsewhere(g, r, place, k);
      assert rs + [] == rs;
    }
  }

  lemma PeerMeets(g: Graph, fleet: seq<Node>, isLocal: string -> bool, rs: seq<Report>, r: Report, k: string)
    requires GoesOut(fleet, isLocal, k, r) && (k in g.external <==> rs != [])
    requires k in g.external ==> SumsUpPeer(g.external[k], rs)
    ensures var t := Taken(g, r, External(r.conn.remote.value));
            k in t.external && SumsUpPeer(t.external[k], rs + [r])
  {
    var ip := r.conn.remote.value.ip;
    assert k == PeerKey(r.node.name, r.conn.name, ip);
    var p := PeerAt(g, k, r, ip);
    assert rs == [] ==> PeerAdds(p, []);
    MetAdds(p, rs, r);
    assert rs != [] ==> (rs + [r])[0] == rs[0];
  }

  lemma PeerElsewhere(g: Graph, r: Report, place: Place, k: string)
    requires place.External? ==> k != PeerKey(r.node.name, r.conn.name, place.peer.ip)
    ensures var t := Taken(g, r, place);
            (k in t.external <==> k in g.external) && (k in g.external ==> t.external[k] == g.external[k])
  {
  }

  lemma PeerStep(g: Graph, fleet: seq<Node>, isLocal: string -> bool, all: seq<Report>, r: Report, k: string)
    requires PeerRight(g, fleet, isLocal, all, k)
    ensures PeerRight(Taken(g, r, PlaceOf(fleet, r.node, r.conn, isLocal)), fleet, isLocal, all + [r], k)
  {
    var place := PlaceOf(fleet, r.node, r.conn, isLocal);
    var rs := Filter(all, OutKey(fleet, isLocal, k));
    PlaceIs(fleet, isLocal, r);
    FilterAppend(all, r, OutKey(fleet, isLocal, k));
    if GoesOut(fleet, isLocal, k, r) {
      assert place == External(r.conn.remote.value);
      PeerMeets(g, fleet, isLocal, rs, r, k);
    } else {
      PeerElsewhere(g, r, place, k);
      assert rs + [] == rs;
    }
  }

  lemma {:induction false} GraphIsRight(fleet: seq<Node>, rs: seq<Report>, isLocal: string -> bool)
    ensures GraphRight(GraphOf(fleet, rs, isLocal), fleet, isLocal, rs)
  {
    if rs == [] {
    } else {
      var init, r := rs[..|rs| - 1], rs[|rs| - 1];
      var g := GraphOf(fleet, init, isLocal);
      GraphIsRight(fleet, init, isLocal);
      assert rs == init + [r];
      forall k ensures EdgeRight(GraphOf(fleet, rs, isLocal), fleet, isLocal, rs, k) {
        EdgeStep(g, fleet, isLocal, init, r, k);
      }
      forall k ensures PeerRight(GraphOf(fleet, rs, isLocal), fleet, isLocal, rs, k) {
        PeerStep(g, fleet, isLocal, init, r, k);
      }
      PlaceIs(fleet, isLocal, r);
      FilterAppend(init, r, Left(fleet, isLocal));
    }
  }

  lemma {:induction false} EntriesAre(node: Node, n: nat)
    requires n <= |node.established|
    ensures ReportsOf(node, n) == Entries(node, node.established[..n])
  {
    if n == 0 {
    } else {
      EntriesAre(node, n - 1);
      EntriesAppend(node, node.established[..n - 1], node.established[n - 1]);
      assert node.established[..n] == node.established[..n - 1] + [node.established[n - 1]];
    }
  }

  lemma {:induction false} EntriesAppend(node: Node, es: seq<Option<Conn>>, e: Option<Conn>)
    ensures Entries(node, es + [e]) == Entries(node, es) + if e.Some? then [Report(node, e.value)] else []
  {
    if es == [] {
      assert [e][1..] == [] && [] + [e] == [e];
    } else {
      EntriesAppend(node, es[1..], e);
      assert (es + [e])[1..] == es[1..] + [e];
    }
  }

  lemma {:induction false} SocketsAppend(fleet: seq<Node>, node: Node)
    ensures AllSockets(fleet + [node]) == AllSockets(fleet) + SocketsOf(node)
  {
    var all := fleet + [node];
    if fleet == [] {
      assert all == [node] && all[1..] == [];
      assert SocketsOf(node) + [] == [] + SocketsOf(node);
    } else {
      SocketsAppend(fleet[1..], node);
      assert all[1..] == fleet[1..] + [node] && all[0] == fleet[0];
      Regroup(SocketsOf(fleet[0]), AllSockets(fleet[1..]), SocketsOf(node));
    }
  }

  lemma Regroup(a: seq<Report>, b: seq<Report>, c: seq<Report>)
    ensures a + (b + c) == (a + b) + c
  {
  }

  lemma SocketsOfNode(node: Node)
    ensures SocketsOf(node) == if node.online && node.readable then ReportsOf(node, |node.established|) else []
  {
    EntriesAre(node, |node.established|);
    assert node.established[..|node.established|] == node.established;
  }

  ghost predicate SameSockets(fleet: seq<Node>) {
    Reports(fleet) == AllSockets(fleet)
  }

  lemma SameSocketsAppend(fleet: seq<Node>, node: Node)
    requires SameSockets(fleet)
    ensures SameSockets(fleet + [node])
  {
    SocketsAppend(fleet, node);
    SocketsOfNode(node);
    ReportsAppend(fleet, node);
  }

  lemma ReportsAppend(fleet: seq<Node>, node: Node)
    ensures Reports(fleet + [node]) ==
            Reports(fleet) + if node.online && node.readable then ReportsOf(node, |node.established|) else []
  {
    assert (fleet + [node])[..|fleet|] == fleet;
  }

  /** The loop below and the definition above go through the same sockets. */
  lemma {:induction false} ReportsAreSockets(fleet: seq<Node>)
    ensures SameSockets(fleet)
  {
    if fleet == [] {
    } else {
      var init, node := fleet[..|fleet| - 1], fleet[|fleet| - 1];
      ReportsAreSockets(init);
      SameSocketsAppend(init, node);
      assert fleet == init + [node];
    }
  }

  /** A rate needs an earlier build at least a second ago; over that time it gives the
      retransmits since, none if the count went down. */
  ghost predicate IsRate(rate: Option<real>, prev: map<string, (real, int)>, k: string, now: real, total: int) {
    && (rate.Some? <==> k in prev && now - prev[k].0 >= 1.0)
    && (rate.Some? ==> rate.value * (now - prev[k].0) == if total > prev[k].1 then (total - prev[k].1) as real else 0.0)
  }

  lemma RateIs(prev: map<string, (real, int)>, k: string, now: real, total: int)
    ensures IsRate(RateOf(prev, k, now, total), prev, k, now, total)
  {
  }

  class FleetMap {
    /** Per edge, when it was last built and its retransmits then. */
    var retransPrev: map<string, (real, int)>

    constructor ()
      ensures retransPrev == map[]
    {
      retransPrev := map[];
    }

    /** The body of the inner loop. */
    method Take(g: Graph, byIp: map<string, string>, r: Report, isLocal: string -> bool, ghost fleet: seq<Node>)
      returns (t: Graph)
      requires forall ip :: Indexed(byIp, fleet, ip)
      ensures t == Taken(g, r, PlaceOf(fleet, r.node, r.conn, isLocal))
    {
      var c := r.conn;
      if c.remote.None? || isLocal(c.remote.value.ip) {
        return g;
      }
      var ip, port := c.remote.value.ip, c.remote.value.port;
      assert Indexed(byIp, fleet, ip);
      if ip !in byIp {
        var k := PeerKey(r.node.name, c.name, ip);
        return g.(external := g.external[k := Met(PeerAt(g, k, r, ip), port, c)]);
      }
      var target := byIp[ip];
      if target == r.node.name {
        return g;
      }
      if c.localPort.Some? && c.localPort.value in r.node.listeners {
        return g.(skipped := g.skipped + 1);
      }
      var k := EdgeKey(r.node.name, c.name, target, port);
      return g.(edges := g.edges[k := Plus(EdgeAt(g, k, r, target, port), c)]);
    }

    method TakeNode(g: Graph, byIp: map<string, string>, node: Node, isLocal: string -> bool,
                    ghost fleet: seq<Node>, ghost before: seq<Report>)
      returns (t: Graph)
      requires forall ip :: Indexed(byIp, fleet, ip)
      requires g == GraphOf(fleet, before, isLocal)
      ensures t == GraphOf(fleet, before + ReportsOf(node, |node.established|), isLocal)
    {
      t := g;
      assert before + [] == before;
      for i := 0 to |node.established|
        invariant t == GraphOf(fleet, before + ReportsOf(node, i), isLocal)
      {
        if node.established[i].Some? {
          var r := Report(node, node.established[i].value);
          t := Take(t, byIp, r, isLocal, fleet);
          OneMoreReport(before, ReportsOf(node, i), r);
        } else {
          assert ReportsOf(node, i) + [] == ReportsOf(node, i);
        }
      }
    }

    /** `build`: the edges, the external peers before the cut, and what was skipped. */
    method Build(fleet: seq<Node>, isLocal: string -> bool, now: real)
      returns (g: Graph, rates: map<string, Option<real>>)
      modifies this
      ensures g == GraphOf(fleet, Reports(fleet), isLocal)
      ensures GraphRight(g, fleet, isLocal, AllSockets(fleet))
      ensures rates.Keys == g.edges.Keys &&
              forall k :: k in rates ==> IsRate(rates[k], old(retransPrev), k, now, g.edges[k].retrans)
      ensures forall k :: k in retransPrev <==> k in old(retransPrev) || k in g.edges
      ensures forall k :: k in retransPrev ==>
                retransPrev[k] == if k in g.edges then (now, g.edges[k].retrans) else old(retransPrev[k])
    {
      GraphIsRight(fleet, Reports(fleet), isLocal);
      ReportsAreSockets(fleet);
      var byIp := IndexAddresses(fleet);
      g := TakeFleet(fleet, byIp, isLocal);
      rates := FinishEdges(g.edges, now);
    }

    method TakeFleet(fleet: seq<Node>, byIp: map<string, string>, isLocal: string -> bool) returns (g: Graph)
      requires forall ip :: Indexed(byIp, fleet, ip)
      ensures g == GraphOf(fleet, Reports(fleet), isLocal)
    {
      g := Graph(map[], map[], 0);
      ghost var seen: seq<Node> := [];
      for n := 0 to |fleet|
        invariant seen == fleet[..n] && g == GraphOf(fleet, Reports(seen), isLocal)
      {
        NodesOn(fleet, n);
        if fleet[n].online && fleet[n].readable {
          g := TakeNode(g, byIp, fleet[n], isLocal, fleet, Reports(seen));
        }
        seen := seen + [fleet[n]];
      }
      assert seen == fleet;
    }

    /** `_finish_edge`, as far as the retransmit rate goes. */
    method FinishEdges(edges: map<string, Edge>, now: real) returns (rates: map<string, Option<real>>)
      modifies this
      ensures rates.Keys == edges.Keys &&
              forall k :: k in rates ==> IsRate(rates[k], old(retransPrev), k, now, edges[k].retrans)
      ensures forall k :: k in retransPrev <==> k in old(retransPrev) || k in edges
      ensures forall k :: k in retransPrev ==>
                retransPrev[k] == if k in edges then (now, edges[k].retrans) else old(retransPrev[k])
    {
      rates := map[];
      var todo := edges.Keys;
      while todo != {}
        invariant todo <= edges.Keys && rates.Keys == edges.Keys - todo
        invariant forall k :: k in rates ==> IsRate(rates[k], old(retransPrev), k, now, edges[k].retrans)
        invariant forall k :: k in retransPrev <==> k in old(retransPrev) || k in edges.Keys - todo
        invariant forall k :: k in retransPrev ==>
                    retransPrev[k] == if k in edges.Keys - todo then (now, edges[k].retrans) else old(retransPrev[k])
      {
        var k :| k in todo;
        RateIs(old(retransPrev), k, now, edges[k].retrans);
        assert RateOf(retransPrev, k, now, edges[k].retrans) == RateOf(old(retransPrev), k, now, edges[k].retrans);
        rates := rates[k := RateOf(retransPrev, k, now, edges[k].retrans)];
        retransPrev := retransPrev[k := (now, edges[k].retrans)];
        todo := todo - {k};
      }
    }
  }

  lemma NodesOn(fleet: seq<Node>, n: nat)
    requires n < |fleet|
    ensures fleet[..n + 1] == fleet[..n] + [fleet[n]]
    ensures var node := fleet[n];
            Reports(fleet[..n] + [node]) ==
            if node.online && node.readable then Reports(fleet[..n]) + ReportsOf(node, |node.established|)
            else Reports(fleet[..n])
  {
    assert (fleet[..n] + [fleet[n]])[..n] == fleet[..n];
    assert Reports(fleet[..n]) + [] == Reports(fleet[..n]);
  }

  /** Retransmits per second since the last build, if that was at least a second ago. */
  function RateOf(prev: map<string, (real, int)>, k: string, now: real, total: int): Option<real> {
    if k in prev && now - prev[k].0 >= 1.0
    then Some((if total > prev[k].1 then total - prev[k].1 else 0) as real / (now - prev[k].0))
    else None
  }

  lemma OneMoreReport(before: seq<Report>, more: seq<Report>, r: Report)
    ensures (before + (more + [r]))[..|before + more|] == before + more
    ensures before + (more + [r]) == before + more + [r]
  {
  }
}
