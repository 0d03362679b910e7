/** The command downlink (`CommandBroker`): commands are queued per agent, taken by
    the agent's next report, answered by a later one, cancelled on a timeout, or
    dropped when the queue overflows.  The class is proved against a ghost ledger
    with one entry per submitted command. */
module CommandBroker {
  import opened Prelude

  const MAX_PENDING: nat := 64

  /** The dict handed to the agent: two named fields and whatever else it carries. */
  datatype Command = Command(id: string, action: string, rest: map<string, string>)

  /** `{"id": cmd_id, "action": action, **payload}`: a payload field wins.  No caller
      of `submit` passes an id of its own. */
  function Build(id: string, action: string, payload: map<string, string>): Command
    requires "id" !in payload
  {
    Command(id, if "action" in payload then payload["action"] else action, payload - {"action"})
  }

  /** What a caller of `submit` asked for. */
  datatype Asked = Asked(action: string, payload: map<string, string>)

  /** The command says exactly what was asked for: its id, the payload's action or else the
      argument, and every other field of the payload. */
  ghost predicate Carries(c: Command, id: string, a: Asked) {
    && c.id == id
    && ("action" in a.payload ==> c.action == a.payload["action"])
    && ("action" !in a.payload ==> c.action == a.action)
    && (forall k :: k in c.rest <==> k in a.payload && k != "action")
    && (forall k :: k in a.payload && k != "action" ==> c.rest[k] == a.payload[k])
  }

  /** One element of an agent's `command_results`. */
  datatype Reply = NotADict | Dict(id: string, body: string)

  datatype Answer = FromAgent(reply: Reply) | Overflow503(id: string)

  datatype FutureState = Waiting | Done(answer: Answer) | Abandoned

  /** An `asyncio.Future`: the awaiting request may abandon it at any time. */
  class Future {
    var state: FutureState
    ghost var answeredBy: Option<string>
    /** Which submission created it, counted from 0. */
    ghost const serial: nat

    constructor (ghost serial: nat)
      ensures state == Waiting && answeredBy == None && this.serial == serial
    {
      state, answeredBy, this.serial := Waiting, None, serial;
    }

    method SetResult(answer: Answer, ghost agent: Option<string>)
      requires state == Waiting
      modifies this
      ensures state == Done(answer) && answeredBy == agent
    {
      state, answeredBy := Done(answer), agent;
    }

    method Abandon()
      modifies this
      ensures state == if old(state) == Waiting then Abandoned else old(state)
      ensures answeredBy == old(answeredBy)
    {
      if state == Waiting {
        state := Abandoned;
      }
    }
  }

  // --------------------------------------------------------------------- ids

  function Id(node: string, n: nat): string {
    node + ":" + Dec(n)
  }

  /** Ids never collide, whatever the node names contain. */
  lemma IdInjective(node: string, n: nat, node': string, n': nat)
    requires Id(node, n) == Id(node', n')
    ensures node == node' && n == n'
  {
    LastSeparatorUnique(node, Dec(n), node', Dec(n'), ':');
    DecInjective(n, n');
  }

  /** Whose commands an agent may answer: its own, and those of a node whose name
      starts with the agent's name and a colon. */
  lemma AnswerScope(agent: string, node: string, n: nat)
    ensures StartsWith(Id(node, n), agent + ":") <==> agent == node || StartsWith(node, agent + ":")
  {
    var id, p := Id(node, n), agent + ":";
    assert id[|node|] == ':' && id[..|node|] == node;
    assert forall i :: |node| < i < |id| ==> id[i] == Dec(n)[i - |node| - 1];
    assert p[|agent|] == ':' && p[..|agent|] == agent;
    if StartsWith(id, p) {
      assert id[|agent|] == ':' && id[..|agent|] == agent && |agent| <= |node|;
      assert |agent| < |node| ==> p == id[..|p|] == node[..|p|];
    }
    if StartsWith(node, p) {
      assert id[..|p|] == node[..|p|] == p;
    }
  }

  /** Enrolled names are letters, digits, '-' and '_', so the scope is exact. */
  lemma AnswersOnlyOwn(agent: string, node: string, n: nat)
    requires ':' !in node
    ensures StartsWith(Id(node, n), agent + ":") <==> agent == node
  {
    AnswerScope(agent, node, n);
    assert (agent + ":")[|agent|] == ':';
    assert forall i :: 0 <= i < |node| ==> node[i] != ':';
  }

  // ------------------------------------------------------------------ ledger

  datatype Fate = Queued | Taken | Overflowed | Cancelled

  datatype Entry = Entry(node: string, id: string, cmd: Command, fate: Fate, future: Future, asked: Asked)

  type Ledger = seq<Entry>

  /** The commands of one node with one fate, in submit order. */
  ghost function Pick(l: Ledger, node: string, fate: Fate): seq<Command> {
    if l == [] then [] else
    var e := l[|l| - 1];
    Pick(l[..|l| - 1], node, fate) + if e.node == node && e.fate == fate then [e.cmd] else []
  }

  /** Where a node's last collection happened: everything taken lies before it,
      everything still queued after it. */
  ghost predicate Cut(l: Ledger, node: string, at: nat) {
    forall i :: 0 <= i < |l| && l[i].node == node ==>
      (l[i].fate == Taken ==> i < at) && (l[i].fate == Queued ==> at <= i)
  }

  ghost function MarkTaken(l: Ledger, node: string): Ledger {
    seq(|l|, i requires 0 <= i < |l| =>
      if l[i].node == node && l[i].fate == Queued then l[i].(fate := Taken) else l[i])
  }

  ghost function MarkCancelled(l: Ledger, id: string): Ledger {
    seq(|l|, i requires 0 <= i < |l| =>
      if l[i].cmd.id == id && l[i].fate == Queued then l[i].(fate := Cancelled) else l[i])
  }

  /** The oldest queued command of a node. */
  ghost function Oldest(l: Ledger, node: string): (i: nat)
    requires Pick(l, node, Queued) != []
    ensures i < |l| && l[i].node == node && l[i].fate == Queued
    ensures forall j :: 0 <= j < i && l[j].node == node ==> l[j].fate != Queued
    ensures l[i].cmd == Pick(l, node, Queued)[0]
  {
    var init := l[..|l| - 1];
    if Pick(init, node, Queued) != [] then
      var i := Oldest(init, node);
      assert forall j :: 0 <= j < i ==> init[j] == l[j];
      i
    else
      NoneQueued(init, node);
      assert forall j :: 0 <= j < |init| ==> init[j] == l[j];
      |l| - 1
  }

  lemma {:induction false} NoneQueued(l: Ledger, node: string)
    ensures Pick(l, node, Queued) == [] <==> forall j :: 0 <= j < |l| && l[j].node == node ==> l[j].fate != Queued
  {
    if l == [] {
    } else {
      NoneQueued(l[..|l| - 1], node);
      assert forall j :: 0 <= j < |l| - 1 ==> l[..|l| - 1][j] == l[j];
      assert l[|l| - 1] in l;
    }
  }

  /** What is picked comes from the ledger. */
  lemma {:induction false} PickFrom(l: Ledger, node: string, fate: Fate, c: Command)
    requires c in Pick(l, node, fate)
    ensures exists i :: 0 <= i < |l| && l[i].node == node && l[i].fate == fate && l[i].cmd == c
  {
    var init := l[..|l| - 1];
    if c in Pick(init, node, fate) {
      PickFrom(init, node, fate, c);
      var i :| 0 <= i < |init| && init[i].node == node && init[i].fate == fate && init[i].cmd == c;
      assert l[i] == init[i];
    } else {
      assert l[|l| - 1].cmd == c;
    }
  }

  ghost function MarkOverflowed(l: Ledger, node: string): Ledger
    requires Pick(l, node, Queued) != []
  {
    l[Oldest(l, node) := l[Oldest(l, node)].(fate := Overflowed)]
  }

  function Without(q: seq<Command>, id: string): seq<Command> {
    if q == [] then [] else
    Without(q[..|q| - 1], id) + if q[|q| - 1].id != id then [q[|q| - 1]] else []
  }

  /** Only fates differ: what every step of the broker does to past entries. */
  ghost predicate SameSlots(l: Ledger, m: Ledger) {
    |l| == |m| && forall i :: 0 <= i < |l| ==> m[i] == l[i].(fate := m[i].fate)
  }

  lemma {:induction false} TakenJoinsTaken(l: Ledger, node: string, at: nat)
    requires Cut(l, node, at)
    ensures Pick(MarkTaken(l, node), node, Taken) == Pick(l, node, Taken) + Pick(l, node, Queued)
  {
    if l == [] {
    } else {
      var init, e := l[..|l| - 1], l[|l| - 1];
      TakenJoinsTaken(init, node, at);
      assert MarkTaken(l, node)[..|l| - 1] == MarkTaken(init, node);
      if e.node == node && e.fate == Taken {
        NoneQueued(init, node);
        assert forall i :: 0 <= i < |init| && l[i].node == node ==> l[i].fate != Queued;
      }
    }
  }

  lemma {:induction false} TakenEmptiesQueue(l: Ledger, node: string, other: string)
    ensures Pick(MarkTaken(l, node), other, Queued) == if other == node then [] else Pick(l, other, Queued)
  {
    if l == [] {
    } else {
      TakenEmptiesQueue(l[..|l| - 1], node, other);
      assert MarkTaken(l, node)[..|l| - 1] == MarkTaken(l[..|l| - 1], node);
    }
  }

  lemma {:induction false} TakenElsewhere(l: Ledger, node: string, other: string)
    requires other != node
    ensures Pick(MarkTaken(l, node), other, Taken) == Pick(l, other, Taken)
  {
    if l == [] {
    } else {
      TakenElsewhere(l[..|l| - 1], node, other);
      assert MarkTaken(l, node)[..|l| - 1] == MarkTaken(l[..|l| - 1], node);
    }
  }

  lemma {:induction false} CancelledLeavesQueue(l: Ledger, id: string, node: string)
    ensures Pick(MarkCancelled(l, id), node, Queued) == Without(Pick(l, node, Queued), id)
  {
    if l == [] {
    } else {
      var init, e := l[..|l| - 1], l[|l| - 1];
      CancelledLeavesQueue(init, id, node);
      assert MarkCancelled(l, id)[..|l| - 1] == MarkCancelled(init, id);
      assert Pick(l, node, Queued) ==
             Pick(init, node, Queued) + if e.node == node && e.fate == Queued then [e.cmd] else [];
      WithoutAppend(Pick(init, node, Queued), e.cmd, id);
    }
  }

  lemma WithoutAppend(q: seq<Command>, c: Command, id: string)
    ensures Without(q + [c], id) == Without(q, id) + if c.id != id then [c] else []
    ensures Without(q + [], id) == Without(q, id)
  {
    assert (q + [c])[..|q|] == q && q + [] == q;
  }

  lemma {:induction false} CancelledLeavesTaken(l: Ledger, id: string, node: string)
    ensures Pick(MarkCancelled(l, id), node, Taken) == Pick(l, node, Taken)
  {
    if l == [] {
    } else {
      CancelledLeavesTaken(l[..|l| - 1], id, node);
      assert MarkCancelled(l, id)[..|l| - 1] == MarkCancelled(l[..|l| - 1], id);
    }
  }

  lemma {:induction false} PickOverflowed(l: Ledger, node: string, other: string)
    requires Pick(l, node, Queued) != []
    ensures Pick(MarkOverflowed(l, node), other, Queued) ==
              if other == node then Pick(l, node, Queued)[1..] else Pick(l, other, Queued)
    ensures Pick(MarkOverflowed(l, node), other, Taken) == Pick(l, other, Taken)
  {
    var init, e := l[..|l| - 1], l[|l| - 1];
    assert l == init + [e];
    OverflowStep(init, e, node);
    PickAppend(init, e, other);
    PickAppend(init, e, node);
    if Pick(init, node, Queued) != [] {
      PickOverflowed(init, node, other);
      PickAppend(MarkOverflowed(init, node), e, other);
      TailOfConcat(Pick(init, node, Queued), [e.cmd]);
      TailOfConcat(Pick(init, node, Queued), []);
    } else {
      PickAppend(init, e.(fate := Overflowed), other);
    }
  }

  lemma TailOfConcat(q: seq<Command>, r: seq<Command>)
    requires q != []
    ensures (q + r)[1..] == q[1..] + r
  {
  }

  lemma OverflowStep(init: Ledger, e: Entry, node: string)
    requires Pick(init + [e], node, Queued) != []
    ensures MarkOverflowed(init + [e], node) ==
            if Pick(init, node, Queued) != [] then MarkOverflowed(init, node) + [e]
            else init + [e.(fate := Overflowed)]
    ensures Pick(init, node, Queued) == [] ==> e.node == node && e.fate == Queued
  {
    var l := init + [e];
    assert l[..|l| - 1] == init;
  }

  lemma PickAppend(l: Ledger, e: Entry, node: string)
    ensures forall fate :: Pick(l + [e], node, fate) ==
                           Pick(l, node, fate) + if e.node == node && e.fate == fate then [e.cmd] else []
  {
    assert (l + [e])[..|l|] == l;
  }

  ghost function Count(l: Ledger, node: string): nat {
    if l == [] then 0 else Count(l[..|l| - 1], node) + if l[|l| - 1].node == node then 1 else 0
  }

  lemma {:induction false} FatesAddUp(l: Ledger, node: string)
    ensures Count(l, node) == |Pick(l, node, Queued)| + |Pick(l, node, Taken)|
                              + |Pick(l, node, Overflowed)| + |Pick(l, node, Cancelled)|
  {
    if l == [] {
    } else {
      FatesAddUp(l[..|l| - 1], node);
    }
  }

  /** What is left of a node's submissions after overflows and cancellations. */
  ghost function Surviving(l: Ledger, node: string): seq<Command> {
    if l == [] then [] else
    var e := l[|l| - 1];
    Surviving(l[..|l| - 1], node) + if e.node == node && (e.fate == Taken || e.fate == Queued) then [e.cmd] else []
  }

  lemma {:induction false} TakenBeforeQueued(l: Ledger, node: string, at: nat)
    requires Cut(l, node, at)
    ensures Surviving(l, node) == Pick(l, node, Taken) + Pick(l, node, Queued)
  {
    if l == [] {
    } else {
      var init, e := l[..|l| - 1], l[|l| - 1];
      TakenBeforeQueued(init, node, at);
      if e.node == node && e.fate == Taken {
        NoneQueued(init, node);
        assert forall i :: 0 <= i < |init| && l[i].node == node ==> l[i].fate != Queued;
      }
    }
  }

  // ------------------------------------------------------------------- broker

  function At(m: map<string, seq<Command>>, node: string): seq<Command> {
    if node in m then m[node] else []
  }

  /** Some submission to the node, still queued, asked for just this. */
  ghost predicate Ordered(l: Ledger, node: string, c: Command) {
    exists i :: 0 <= i < |l| && l[i].node == node && l[i].fate == Queued && l[i].cmd == c &&
                Carries(c, Id(node, i + 1), l[i].asked)
  }

  /** What the broker remembers per node, with the ghost record of deliveries. */
  datatype Books = Books(pending: map<string, seq<Command>>,
                         delivered: map<string, seq<Command>>,
                         cuts: map<string, nat>)

  ghost function CutOf(b: Books, node: string): nat {
    if node in b.cuts then b.cuts[node] else 0
  }

  /** One node's queue and deliveries are exactly what the ledger says. */
  ghost predicate NodeMatches(b: Books, l: Ledger, n: string) {
    && (n in b.pending ==> b.pending[n] != [] && |b.pending[n]| <= MAX_PENDING)
    && At(b.pending, n) == Pick(l, n, Queued)
    && At(b.delivered, n) == Pick(l, n, Taken)
    && Cut(l, n, CutOf(b, n)) && CutOf(b, n) <= |l|
  }

  ghost predicate Queues(b: Books, l: Ledger) {
    forall n :: NodeMatches(b, l, n)
  }

  ghost predicate Numbered(l: Ledger, i: nat)
    requires i < |l|
  {
    l[i].id == Id(l[i].node, i + 1) && Carries(l[i].cmd, l[i].id, l[i].asked) && l[i].future.serial == i
  }

  /** Ids number the submissions, each command carries what was asked for; every registered
      future is its entry's own. */
  ghost predicate Ids(counter: nat, futures: map<string, Future>, l: Ledger) {
    && counter == |l|
    && (forall i :: 0 <= i < |l| ==> Numbered(l, i))
    && (forall id {:trigger Owned(l, id, futures[id])} :: id in futures ==> Owned(l, id, futures[id]))
  }

  ghost predicate Owned(l: Ledger, id: string, f: Future) {
    f.serial < |l| && l[f.serial].id == id && l[f.serial].future == f
  }

  /** Nothing submitted is lost: each command of a node was delivered, is queued,
      overflowed or was cancelled, and what was delivered followed by what is queued is
      what survives of the submissions, in submit order. */
  lemma Partition(b: Books, l: Ledger, node: string)
    requires Queues(b, l)
    ensures Count(l, node) == |At(b.pending, node)| + |At(b.delivered, node)|
                              + |Pick(l, node, Overflowed)| + |Pick(l, node, Cancelled)|
    ensures At(b.delivered, node) + At(b.pending, node) == Surviving(l, node)
  {
    assert NodeMatches(b, l, node);
    FatesAddUp(l, node);
    TakenBeforeQueued(l, node, CutOf(b, node));
  }

  lemma MarkTakenCut(l: Ledger, node: string, n: string, at: nat)
    requires Cut(l, n, at) && at <= |l|
    ensures Cut(MarkTaken(l, node), n, if n == node then |l| else at)
  {
  }

  lemma TakeKeepsQueues(b: Books, l: Ledger, node: string)
    requires Queues(b, l)
    ensures Queues(Books(b.pending - {node}, b.delivered[node := At(b.delivered, node) + At(b.pending, node)],
                         b.cuts[node := |l|]),
                   MarkTaken(l, node))
  {
    var m := MarkTaken(l, node);
    var after := Books(b.pending - {node}, b.delivered[node := At(b.delivered, node) + At(b.pending, node)],
                       b.cuts[node := |l|]);
    forall n ensures NodeMatches(after, m, n) {
      assert NodeMatches(b, l, n);
      TakenEmptiesQueue(l, node, n);
      MarkTakenCut(l, node, n, CutOf(b, n));
      if n == node {
        TakenJoinsTaken(l, node, CutOf(b, n));
      } else {
        TakenElsewhere(l, node, n);
      }
    }
  }

  // ------------------------------------------------------------------ answers

  datatype Seen = Seen(state: FutureState, answeredBy: Option<string>)

  type View = map<Future, Seen>

  ghost predicate Shows(view: View, f: Future)
    reads f
  {
    f in view && view[f] == Seen(f.state, f.answeredBy)
  }

  /** A completed future was answered under its own id: by an agent allowed to
      answer it, or by an overflow. */
  ghost predicate Legit(e: Entry, seen: Seen) {
    match seen.state
    case Done(FromAgent(r)) =>
      r.Dict? && r.id == e.id && seen.answeredBy.Some? && StartsWith(e.id, seen.answeredBy.value + ":")
    case Done(Overflow503(id)) => id == e.id
    case _ => true
  }

  /** An overflow answers exactly the commands that overflowed; those, and the ones
      cancelled while queued, leave no future registered; and a command still queued
      is either registered or already settled. */
  ghost predicate Settled(e: Entry, seen: Seen, registered: set<string>) {
    && (seen.state.Done? && seen.state.answer.Overflow503? ==> e.fate == Overflowed)
    && (e.fate == Overflowed ==> e.id !in registered && seen.state != Waiting)
    && (e.fate == Cancelled ==> e.id !in registered)
    && (e.fate == Queued && e.id !in registered ==> seen.state != Waiting)
  }

  ghost predicate EntryOk(l: Ledger, view: View, registered: set<string>, i: nat)
    requires i < |l|
  {
    && l[i].future in view
    && Legit(l[i], view[l[i].future])
    && Settled(l[i], view[l[i].future], registered)
  }

  ghost predicate Answers(l: Ledger, view: View, registered: set<string>) {
    forall i :: 0 <= i < |l| ==> EntryOk(l, view, registered, i)
  }

  lemma TakeKeepsAnswers(l: Ledger, view: View, registered: set<string>, node: string)
    requires Answers(l, view, registered)
    ensures Answers(MarkTaken(l, node), view, registered)
  {
    var m := MarkTaken(l, node);
    forall i | 0 <= i < |m| ensures EntryOk(m, view, registered, i) {
      assert EntryOk(l, view, registered, i);
    }
  }

  lemma SameIds(counter: nat, futures: map<string, Future>, l: Ledger, m: Ledger)
    requires SameSlots(l, m) && Ids(counter, futures, l)
    ensures Ids(counter, futures, m)
  {
    forall i | 0 <= i < |m| ensures Numbered(m, i) {
      assert Numbered(l, i);
    }
    forall id | id in futures ensures Owned(m, id, futures[id]) {
      assert Owned(l, id, futures[id]);
    }
  }

  lemma OverflowKeepsQueues(b: Books, l: Ledger, node: string)
    requires Queues(b, l) && |At(b.pending, node)| == MAX_PENDING
    ensures Pick(l, node, Queued) == At(b.pending, node)
    ensures Queues(b.(pending := b.pending[node := At(b.pending, node)[1..]]), MarkOverflowed(l, node))
  {
    assert NodeMatches(b, l, node);
    var after, m := b.(pending := b.pending[node := At(b.pending, node)[1..]]), MarkOverflowed(l, node);
    forall n ensures NodeMatches(after, m, n) {
      assert NodeMatches(b, l, n);
      OverflowMatches(b, l, node, n);
    }
  }

  lemma OverflowMatches(b: Books, l: Ledger, node: string, n: string)
    requires NodeMatches(b, l, node) && NodeMatches(b, l, n) && |At(b.pending, node)| == MAX_PENDING
    ensures NodeMatches(b.(pending := b.pending[node := At(b.pending, node)[1..]]), MarkOverflowed(l, node), n)
  {
    PickOverflowed(l, node, n);
  }

  lemma AppendKeepsQueues(b: Books, l: Ledger, e: Entry)
    requires Queues(b, l) && e.fate == Queued && |At(b.pending, e.node)| < MAX_PENDING
    ensures Queues(b.(pending := b.pending[e.node := At(b.pending, e.node) + [e.cmd]]), l + [e])
  {
    var after := b.(pending := b.pending[e.node := At(b.pending, e.node) + [e.cmd]]);
    forall n ensures NodeMatches(after, l + [e], n) {
      assert NodeMatches(b, l, n);
      AppendMatches(l, e, n, CutOf(b, n));
    }
  }

  lemma AppendMatches(l: Ledger, e: Entry, n: string, at: nat)
    requires e.fate == Queued && Cut(l, n, at) && at <= |l|
    ensures Pick(l + [e], n, Queued) == Pick(l, n, Queued) + if n == e.node then [e.cmd] else []
    ensures Pick(l + [e], n, Taken) == Pick(l, n, Taken)
    ensures Cut(l + [e], n, at)
  {
    assert (l + [e])[..|l|] == l;
  }

  /** A request that stops waiting: its future is abandoned unless it is done. */
  ghost function Forsaken(view: View, f: Future): View {
    if f in view && view[f].state == Waiting then view[f := view[f].(state := Abandoned)] else view
  }

  lemma AbandonKeepsAnswers(l: Ledger, view: View, registered: set<string>, f: Future)
    requires Answers(l, view, registered)
    ensures Answers(l, Forsaken(view, f), registered)
  {
    forall i | 0 <= i < |l| ensures EntryOk(l, Forsaken(view, f), registered, i) {
      assert EntryOk(l, view, registered, i);
    }
  }

  /** The effect of popping an id and completing its future if it still waits. */
  ghost function Popped(view: View, futures: map<string, Future>, id: string, now: Seen): View {
    if id in futures && futures[id] in view && view[futures[id]].state == Waiting
    then view[futures[id] := now] else view
  }

  lemma OverflowKeepsAnswers(l: Ledger, view: View, futures: map<string, Future>, counter: nat,
                             node: string, after: View)
    requires Answers(l, view, futures.Keys) && Ids(counter, futures, l) && Pick(l, node, Queued) != []
    requires var id := l[Oldest(l, node)].cmd.id;
             after == Popped(view, futures, id, Seen(Done(Overflow503(id)), None))
    ensures Answers(MarkOverflowed(l, node), after, futures.Keys - {l[Oldest(l, node)].cmd.id})
    ensures SameSlots(l, MarkOverflowed(l, node))
  {
    var k := Oldest(l, node);
    var m, id := MarkOverflowed(l, node), l[k].cmd.id;
    forall i | 0 <= i < |m| ensures EntryOk(m, after, futures.Keys - {id}, i) {
      assert EntryOk(l, view, futures.Keys, i);
      OverflowEntry(l, view, futures, counter, node, after, i);
    }
  }

  lemma OverflowEntry(l: Ledger, view: View, futures: map<string, Future>, counter: nat, node: string, after: View,
                      i: nat)
    requires Ids(counter, futures, l) && Pick(l, node, Queued) != [] && i < |l|
    requires EntryOk(l, view, futures.Keys, i)
    requires var id := l[Oldest(l, node)].cmd.id;
             after == Popped(view, futures, id, Seen(Done(Overflow503(id)), None))
    ensures EntryOk(MarkOverflowed(l, node), after, futures.Keys - {l[Oldest(l, node)].cmd.id}, i)
  {
    var k := Oldest(l, node);
    assert Numbered(l, i) && Numbered(l, k);
    UniqueOwner(counter, futures, l, l[k].cmd.id, i);
    if l[i].id == l[k].id {
      IdInjective(l[i].node, i + 1, l[k].node, k + 1);
    }
  }

  /** A registered future belongs to the one entry with its id. */
  lemma UniqueOwner(counter: nat, futures: map<string, Future>, l: Ledger, id: string, i: nat)
    requires Ids(counter, futures, l) && i < |l|
    ensures id in futures ==> (l[i].id == id <==> l[i].future == futures[id])
  {
    if id in futures {
      assert Owned(l, id, futures[id]);
      var j := futures[id].serial;
      assert Numbered(l, i) && Numbered(l, j);
      if l[i].id == id {
        IdInjective(l[i].node, i + 1, l[j].node, j + 1);
      }
    }
  }

  lemma AppendKeepsAnswers(l: Ledger, view: View, registered: set<string>, e: Entry)
    requires Answers(l, view, registered) && e.future !in view
    requires e.fate == Queued && forall i :: 0 <= i < |l| ==> Numbered(l, i)
    requires e.id == Id(e.node, |l| + 1)
    ensures Answers(l + [e], view[e.future := Seen(Waiting, None)], registered + {e.id})
  {
    var m := l + [e];
    var after := view[e.future := Seen(Waiting, None)];
    assert m[|l|] == e && forall i :: 0 <= i < |l| ==> m[i] == l[i];
    forall i | 0 <= i < |m| ensures EntryOk(m, after, registered + {e.id}, i) {
      if i < |l| {
        assert EntryOk(l, view, registered, i) && Numbered(l, i);
        if l[i].id == e.id {
          IdInjective(l[i].node, i + 1, e.node, |l| + 1);
        }
      }
    }
  }

  lemma AppendKeepsIds(counter: nat, futures: map<string, Future>, l: Ledger, e: Entry)
    requires Ids(counter, futures, l) && e.id == Id(e.node, |l| + 1) && e.future.serial == |l|
    requires Carries(e.cmd, e.id, e.asked)
    ensures Ids(counter + 1, futures[e.id := e.future], l + [e])
  {
    var m := l + [e];
    var table := futures[e.id := e.future];
    forall i | 0 <= i < |m| ensures Numbered(m, i) {
      assert i < |l| ==> Numbered(l, i);
    }
    forall id | id in table ensures Owned(m, id, table[id]) {
      if id != e.id {
        assert Owned(l, id, futures[id]);
      }
    }
  }

  lemma CancelKeepsQueues(b: Books, l: Ledger, id: string, after: map<string, seq<Command>>)
    requires Queues(b, l)
    requires forall n {:trigger At(after, n)} :: At(after, n) == Without(At(b.pending, n), id)
    requires forall n :: n in after ==> after[n] != []
    ensures Queues(b.(pending := after), MarkCancelled(l, id))
  {
    var m := MarkCancelled(l, id);
    forall n ensures NodeMatches(b.(pending := after), m, n) {
      assert NodeMatches(b, l, n);
      CancelledLeavesQueue(l, id, n);
      CancelledLeavesTaken(l, id, n);
      CancelledCut(l, id, n, CutOf(b, n));
      assert At(after, n) == Without(At(b.pending, n), id);
      WithoutShrinks(At(b.pending, n), id);
    }
  }

  lemma CancelledCut(l: Ledger, id: string, n: string, at: nat)
    requires Cut(l, n, at)
    ensures Cut(MarkCancelled(l, id), n, at)
  {
  }

  lemma {:induction false} WithoutShrinks(q: seq<Command>, id: string)
    ensures |Without(q, id)| <= |q|
  {
    if q == [] {
    } else {
      WithoutShrinks(q[..|q| - 1], id);
    }
  }

  lemma CancelKeepsAnswers(counter: nat, l: Ledger, view: View, futures: map<string, Future>, id: string)
    requires Answers(l, view, futures.Keys) && Ids(counter, futures, l)
    ensures Answers(MarkCancelled(l, id), view, futures.Keys - {id})
  {
    var m := MarkCancelled(l, id);
    forall i | 0 <= i < |m| ensures EntryOk(m, view, futures.Keys - {id}, i) {
      assert EntryOk(l, view, futures.Keys, i) && Numbered(l, i);
    }
  }

  lemma ReplyKeepsAnswers(l: Ledger, view: View, futures: map<string, Future>, counter: nat,
                          agent: string, reply: Reply, after: View)
    requires Answers(l, view, futures.Keys) && Ids(counter, futures, l)
    requires reply.Dict? && StartsWith(reply.id, agent + ":")
    requires after == Popped(view, futures, reply.id, Seen(Done(FromAgent(reply)), Some(agent)))
    ensures Answers(l, after, futures.Keys - {reply.id})
  {
    forall i | 0 <= i < |l| ensures EntryOk(l, after, futures.Keys - {reply.id}, i) {
      assert EntryOk(l, view, futures.Keys, i);
      UniqueOwner(counter, futures, l, reply.id, i);
    }
  }

  lemma FewerIds(counter: nat, futures: map<string, Future>, l: Ledger, id: string)
    requires Ids(counter, futures, l)
    ensures Ids(counter, futures - {id}, l)
  {
    forall x | x in futures - {id} ensures Owned(l, x, (futures - {id})[x]) {
      assert Owned(l, x, futures[x]);
    }
  }

  function FirstReply(replies: seq<Reply>, id: string): Option<Reply> {
    if replies == [] then None else
    match FirstReply(replies[..|replies| - 1], id)
    case Some(r) => Some(r)
    case None =>
      var r := replies[|replies| - 1];
      if r.Dict? && r.id == id then Some(r) else None
  }

  predicate Answered(agent: string, replies: seq<Reply>, id: string) {
    StartsWith(id, agent + ":") && FirstReply(replies, id).Some?
  }

  /** The results of one report, applied one after the other. */
  ghost function Deliver(view: View, futures: map<string, Future>, agent: string, replies: seq<Reply>)
    : (View, map<string, Future>)
  {
    if replies == [] then (view, futures) else
    var (v, f) := Deliver(view, futures, agent, replies[..|replies| - 1]);
    var r := replies[|replies| - 1];
    if r.Dict? && StartsWith(r.id, agent + ":")
    then (Popped(v, f, r.id, Seen(Done(FromAgent(r)), Some(agent))), f - {r.id})
    else (v, f)
  }

  /** Exactly the registered commands the agent may answer and did answer are
      completed, each with its first result, if still awaited; no other future moves. */
  lemma {:induction false} DeliverMeaning(view: View, futures: map<string, Future>, agent: string, replies: seq<Reply>)
    requires forall id :: id in futures ==> futures[id] in view
    requires forall a, b :: a in futures && b in futures && futures[a] == futures[b] ==> a == b
    ensures var (v, f) := Deliver(view, futures, agent, replies);
            f == (map id | id in futures && !Answered(agent, replies, id) :: futures[id]) &&
            v.Keys == view.Keys &&
            (forall id :: id in futures ==>
               v[futures[id]] == if Answered(agent, replies, id) && view[futures[id]].state == Waiting
                                 then Seen(Done(FromAgent(FirstReply(replies, id).value)), Some(agent))
                                 else view[futures[id]]) &&
            (forall x :: x in view && x !in futures.Values ==> v[x] == view[x])
  {
    if replies == [] {
    } else {
      DeliverMeaning(view, futures, agent, replies[..|replies| - 1]);
    }
  }

  lemma RegisteredKnown(l: Ledger, view: View, counter: nat, futures: map<string, Future>, id: string)
    requires Ids(counter, futures, l) && Answers(l, view, futures.Keys)
    ensures id in futures ==> futures[id] in view
  {
    if id in futures {
      assert Owned(l, id, futures[id]);
      assert EntryOk(l, view, futures.Keys, futures[id].serial);
    }
  }

  // ------------------------------------------------------------ over every run

  /** What the promises speak of: what was submitted, what is registered, and how
      every future stands. */
  datatype System = System(ledger: Ledger, futures: map<string, Future>, view: View)

  ghost predicate Sound(s: System) {
    Ids(|s.ledger|, s.futures, s.ledger) && Answers(s.ledger, s.view, s.futures.Keys)
  }

  /** The scoping promise: an answer that came from an agent came from the agent of
      the command's own node, for colon-free names. */
  lemma OnlyOwnerAnswers(s: System, i: nat)
    requires Sound(s) && i < |s.ledger| && ':' !in s.ledger[i].node
    ensures s.ledger[i].future in s.view
    ensures var e, seen := s.ledger[i], s.view[s.ledger[i].future];
            seen.state.Done? && seen.state.answer.FromAgent? ==>
              seen.answeredBy == Some(e.node) && seen.state.answer.reply.Dict? && seen.state.answer.reply.id == e.id
  {
    var e := s.ledger[i];
    assert EntryOk(s.ledger, s.view, s.futures.Keys, i) && Numbered(s.ledger, i);
    var seen := s.view[e.future];
    if seen.state.Done? && seen.state.answer.FromAgent? {
      AnswersOnlyOwn(seen.answeredBy.value, e.node, i + 1);
    }
  }

  /** A 503 means the command itself overflowed, and a command that overflowed is no
      longer awaited. */
  lemma OverflowAnswersItsOwn(s: System, i: nat)
    requires Sound(s) && i < |s.ledger|
    ensures s.ledger[i].future in s.view
    ensures var e, seen := s.ledger[i], s.view[s.ledger[i].future];
            (seen.state.Done? && seen.state.answer.Overflow503? ==>
               e.fate == Overflowed && seen.state.answer.id == e.id) &&
            (e.fate == Overflowed ==> e.id !in s.futures && seen.state != Waiting)
  {
    assert EntryOk(s.ledger, s.view, s.futures.Keys, i);
  }

  /** What `Deliver` needs: registered ids have futures of their own. */
  lemma FuturesInjective(counter: nat, futures: map<string, Future>, l: Ledger, view: View)
    requires Ids(counter, futures, l) && Answers(l, view, futures.Keys)
    ensures forall id :: id in futures ==> futures[id] in view
    ensures forall a, b :: a in futures && b in futures && futures[a] == futures[b] ==> a == b
  {
    forall id | id in futures ensures futures[id] in view {
      RegisteredKnown(l, view, counter, futures, id);
    }
    forall a, b | a in futures && b in futures && futures[a] == futures[b] ensures a == b {
      assert Owned(l, a, futures[a]) && Owned(l, b, futures[b]);
    }
  }

  /** Everything that happens to the broker and its futures.  A request that times
      out first abandons its future and then cancels. */
  datatype Step = Submits(e: Entry) | Takes(node: string) | Resolves(agent: string, replies: seq<Reply>)
                | Abandons(f: Future) | Cancels(id: string)

  /** The entry the next submission may add. */
  ghost predicate Fresh(e: Entry, counter: nat, view: View) {
    && e.fate == Queued
    && e.id == Id(e.node, counter + 1) && Carries(e.cmd, e.id, e.asked)
    && e.future.serial == counter && e.future !in view
  }

  /** A submission brings the next id and a new future; only known futures are awaited. */
  ghost predicate Possible(s: System, step: Step) {
    match step
    case Submits(e) => Fresh(e, |s.ledger|, s.view)
    case Abandons(f) => f in s.view
    case _ => true
  }

  ghost function Dropped(s: System, node: string): System
    requires Pick(s.ledger, node, Queued) != []
  {
    var id := Pick(s.ledger, node, Queued)[0].id;
    System(MarkOverflowed(s.ledger, node), s.futures - {id},
           Popped(s.view, s.futures, id, Seen(Done(Overflow503(id)), None)))
  }

  ghost function Apply(s: System, step: Step): System {
    match step
    case Submits(e) =>
      Appended(if |Pick(s.ledger, e.node, Queued)| >= MAX_PENDING then Dropped(s, e.node) else s, e)
    case Takes(node) => s.(ledger := MarkTaken(s.ledger, node))
    case Resolves(agent, replies) =>
      var (view, futures) := Deliver(s.view, s.futures, agent, replies);
      s.(futures := futures, view := view)
    case Abandons(f) => s.(view := Forsaken(s.view, f))
    case Cancels(id) => s.(ledger := MarkCancelled(s.ledger, id), futures := s.futures - {id})
  }

  ghost function Run(s: System, steps: seq<Step>): System {
    if steps == [] then s else Apply(Run(s, steps[..|steps| - 1]), steps[|steps| - 1])
  }

  ghost predicate AllPossible(s: System, steps: seq<Step>) {
    steps != [] ==>
      && AllPossible(s, steps[..|steps| - 1])
      && Possible(Run(s, steps[..|steps| - 1]), steps[|steps| - 1])
  }

  lemma DroppedSound(s: System, node: string)
    requires Sound(s) && Pick(s.ledger, node, Queued) != []
    ensures Sound(Dropped(s, node)) && Dropped(s, node).view.Keys == s.view.Keys
  {
    var id, m := Pick(s.ledger, node, Queued)[0].id, MarkOverflowed(s.ledger, node);
    RegisteredKnown(s.ledger, s.view, |s.ledger|, s.futures, id);
    OverflowKeepsAnswers(s.ledger, s.view, s.futures, |s.ledger|, node, Dropped(s, node).view);
    SameIds(|s.ledger|, s.futures, s.ledger, m);
    FewerIds(|s.ledger|, s.futures, m, id);
    assert (s.futures - {id}).Keys == s.futures.Keys - {id};
  }

  ghost function Appended(s: System, e: Entry): System {
    System(s.ledger + [e], s.futures[e.id := e.future], s.view[e.future := Seen(Waiting, None)])
  }

  lemma AppendSound(s: System, e: Entry)
    requires Sound(s) && Fresh(e, |s.ledger|, s.view)
    ensures Sound(Appended(s, e))
  {
    AppendKeepsIds(|s.ledger|, s.futures, s.ledger, e);
    AppendKeepsAnswers(s.ledger, s.view, s.futures.Keys, e);
    assert s.futures[e.id := e.future].Keys == s.futures.Keys + {e.id};
  }

  ghost function Replied(s: System, agent: string, reply: Reply): System
    requires reply.Dict?
  {
    System(s.ledger, s.futures - {reply.id},
           Popped(s.view, s.futures, reply.id, Seen(Done(FromAgent(reply)), Some(agent))))
  }

  lemma ReplySound(s: System, agent: string, reply: Reply)
    requires Sound(s) && reply.Dict? && StartsWith(reply.id, agent + ":")
    ensures Sound(Replied(s, agent, reply))
  {
    ReplyKeepsAnswers(s.ledger, s.view, s.futures, |s.ledger|, agent, reply, Replied(s, agent, reply).view);
    FewerIds(|s.ledger|, s.futures, s.ledger, reply.id);
    assert (s.futures - {reply.id}).Keys == s.futures.Keys - {reply.id};
  }

  lemma {:induction false} DeliverSound(s: System, agent: string, replies: seq<Reply>)
    requires Sound(s)
    ensures Sound(Apply(s, Resolves(agent, replies)))
  {
    if replies == [] {
    } else {
      var r := replies[|replies| - 1];
      DeliverSound(s, agent, replies[..|replies| - 1]);
      if r.Dict? && StartsWith(r.id, agent + ":") {
        ReplySound(Apply(s, Resolves(agent, replies[..|replies| - 1])), agent, r);
      }
    }
  }

  lemma StepSound(s: System, step: Step)
    requires Sound(s) && Possible(s, step)
    ensures Sound(Apply(s, step))
  {
    match step
    case Submits(e) =>
      if |Pick(s.ledger, e.node, Queued)| >= MAX_PENDING {
        DroppedSound(s, e.node);
        AppendSound(Dropped(s, e.node), e);
      } else {
        AppendSound(s, e);
      }
    case Takes(node) =>
      TakeKeepsAnswers(s.ledger, s.view, s.futures.Keys, node);
      SameIds(|s.ledger|, s.futures, s.ledger, MarkTaken(s.ledger, node));
    case Resolves(agent, replies) =>
      DeliverSound(s, agent, replies);
    case Abandons(f) =>
      AbandonKeepsAnswers(s.ledger, s.view, s.futures.Keys, f);
    case Cancels(id) =>
      CancelKeepsAnswers(|s.ledger|, s.ledger, s.view, s.futures, id);
      SameIds(|s.ledger|, s.futures, s.ledger, MarkCancelled(s.ledger, id));
      FewerIds(|s.ledger|, s.futures, MarkCancelled(s.ledger, id), id);
      assert (s.futures - {id}).Keys == s.futures.Keys - {id};
  }

  /** Over any interleaving of submissions, takes, reports, timeouts and
      cancellations: answers stay in scope and 503s stay with what overflowed. */
  lemma {:induction false} RunsAreSound(s: System, steps: seq<Step>)
    requires Sound(s) && AllPossible(s, steps)
    ensures Sound(Run(s, steps))
  {
    if steps == [] {
    } else {
      RunsAreSound(s, steps[..|steps| - 1]);
      StepSound(Run(s, steps[..|steps| - 1]), steps[|steps| - 1]);
    }
  }

  lemma FateIsFinal(s: System, step: Step, i: nat)
    requires i < |s.ledger|
    ensures var t := Apply(s, step);
            |s.ledger| <= |t.ledger| && t.ledger[i] == s.ledger[i].(fate := t.ledger[i].fate) &&
            (s.ledger[i].fate != Queued ==> t.ledger[i] == s.ledger[i])
  {
    match step
    case Submits(e) =>
      if |Pick(s.ledger, e.node, Queued)| >= MAX_PENDING {
        assert Dropped(s, e.node).ledger[i] == s.ledger[i] || i == Oldest(s.ledger, e.node);
      }
    case _ =>
  }

  /** A command taken, overflowed or cancelled stays that way: nothing is taken twice. */
  lemma {:induction false} FatesAreFinal(s: System, steps: seq<Step>, i: nat)
    requires i < |s.ledger|
    ensures |s.ledger| <= |Run(s, steps).ledger|
    ensures Run(s, steps).ledger[i] == s.ledger[i].(fate := Run(s, steps).ledger[i].fate)
    ensures s.ledger[i].fate != Queued ==> Run(s, steps).ledger[i] == s.ledger[i]
  {
    if steps == [] {
    } else {
      FatesAreFinal(s, steps[..|steps| - 1], i);
      FateIsFinal(Run(s, steps[..|steps| - 1]), steps[|steps| - 1], i);
    }
  }

  lemma {:induction false} DeliverSettles(view: View, futures: map<string, Future>, agent: string,
                                          replies: seq<Reply>, f: Future)
    requires f in view && view[f].state != Waiting
    ensures var (v, _) := Deliver(view, futures, agent, replies); f in v && v[f] == view[f]
  {
    if replies == [] {
    } else {
      DeliverSettles(view, futures, agent, replies[..|replies| - 1], f);
    }
  }

  /** An answered or abandoned future never changes again: a command is answered once. */
  lemma {:induction false} AnswersAreFinal(s: System, steps: seq<Step>, f: Future)
    requires f in s.view && s.view[f].state != Waiting && AllPossible(s, steps)
    ensures f in Run(s, steps).view && Run(s, steps).view[f] == s.view[f]
  {
    if steps == [] {
    } else {
      var before, step := Run(s, steps[..|steps| - 1]), steps[|steps| - 1];
      AnswersAreFinal(s, steps[..|steps| - 1], f);
      assert Possible(before, step);
      if step.Resolves? {
        DeliverSettles(before.view, before.futures, step.agent, step.replies, f);
      }
    }
  }

  // ------------------------------------------------------------ whole states

  /** The broker's own state together with what is promised about it. */
  ghost predicate Consistent(b: Books, counter: nat, s: System) {
    Queues(b, s.ledger) && counter == |s.ledger| && Sound(s)
  }

  lemma QueuedOrdered(s: System, node: string)
    requires Sound(s)
    ensures forall c :: c in Pick(s.ledger, node, Queued) ==> Ordered(s.ledger, node, c)
  {
    forall c | c in Pick(s.ledger, node, Queued) ensures Ordered(s.ledger, node, c) {
      PickFrom(s.ledger, node, Queued, c);
      var i :| 0 <= i < |s.ledger| && s.ledger[i].node == node && s.ledger[i].fate == Queued && s.ledger[i].cmd == c;
      assert Numbered(s.ledger, i);
    }
  }

  lemma TakeStep(b: Books, counter: nat, s: System, node: string)
    requires Consistent(b, counter, s)
    ensures Consistent(Books(b.pending - {node}, b.delivered[node := At(b.delivered, node) + At(b.pending, node)],
                             b.cuts[node := |s.ledger|]),
                       counter, Apply(s, Takes(node)))
    ensures At(b.pending, node) == Pick(s.ledger, node, Queued)
  {
    assert NodeMatches(b, s.ledger, node);
    TakeKeepsQueues(b, s.ledger, node);
    StepSound(s, Takes(node));
  }

  lemma DropStep(b: Books, counter: nat, s: System, node: string)
    requires Consistent(b, counter, s) && |At(b.pending, node)| == MAX_PENDING
    ensures Pick(s.ledger, node, Queued) == At(b.pending, node)
    ensures At(b.pending, node)[0].id in s.futures ==> s.futures[At(b.pending, node)[0].id] in s.view
    ensures Consistent(b.(pending := b.pending[node := At(b.pending, node)[1..]]), counter, Dropped(s, node))
  {
    OverflowKeepsQueues(b, s.ledger, node);
    RegisteredKnown(s.ledger, s.view, counter, s.futures, At(b.pending, node)[0].id);
    DroppedSound(s, node);
  }

  lemma AppendStep(b: Books, counter: nat, s: System, e: Entry)
    requires Consistent(b, counter, s) && |At(b.pending, e.node)| < MAX_PENDING && Fresh(e, counter, s.view)
    ensures Consistent(b.(pending := b.pending[e.node := At(b.pending, e.node) + [e.cmd]]), counter + 1, Appended(s, e))
  {
    AppendKeepsQueues(b, s.ledger, e);
    AppendSound(s, e);
  }

  lemma CancelStep(b: Books, counter: nat, s: System, id: string, after: map<string, seq<Command>>)
    requires Consistent(b, counter, s)
    requires forall n {:trigger At(after, n)} :: At(after, n) == Without(At(b.pending, n), id)
    requires forall n :: n in after ==> after[n] != []
    ensures Consistent(b.(pending := after), counter, Apply(s, Cancels(id)))
  {
    CancelKeepsQueues(b, s.ledger, id, after);
    StepSound(s, Cancels(id));
  }

  lemma ReplyStep(b: Books, counter: nat, s: System, agent: string, reply: Reply)
    requires Consistent(b, counter, s) && reply.Dict? && StartsWith(reply.id, agent + ":")
    ensures reply.id in s.futures ==> s.futures[reply.id] in s.view
    ensures Consistent(b, counter, Replied(s, agent, reply))
  {
    RegisteredKnown(s.ledger, s.view, counter, s.futures, reply.id);
    ReplySound(s, agent, reply);
  }

  lemma AbandonStep(b: Books, counter: nat, s: System, f: Future)
    requires Consistent(b, counter, s) && f in s.view
    ensures Consistent(b, counter, Apply(s, Abandons(f)))
  {
    StepSound(s, Abandons(f));
  }

  lemma QueuesNotEmpty(b: Books, l: Ledger)
    requires Queues(b, l)
    ensures forall n :: n in b.pending ==> b.pending[n] != []
  {
    forall n | n in b.pending ensures b.pending[n] != [] {
      assert NodeMatches(b, l, n);
    }
  }

  /** The loop of `cancel`: the command leaves every queue, empty queues go. */
  method RemoveFromQueues(pending: map<string, seq<Command>>, id: string) returns (after: map<string, seq<Command>>)
    requires forall n :: n in pending ==> pending[n] != []
    ensures forall n {:trigger At(after, n)} :: At(after, n) == Without(At(pending, n), id)
    ensures forall n :: n in after ==> after[n] != []
  {
    after := pending;
    var todo := pending.Keys;
    while todo != {}
      invariant todo <= pending.Keys
      invariant forall n {:trigger At(after, n)} ::
                  At(after, n) == if n in todo then At(pending, n) else Without(At(pending, n), id)
      invariant forall n :: n in after ==> n in pending && after[n] != []
    {
      var n :| n in todo;
      todo := todo - {n};
      var queue := Without(pending[n], id);
      ghost var before := after;
      if queue == [] {
        after := after - {n};
      } else {
        after := after[n := queue];
      }
      assert forall m {:trigger At(after, m)} :: At(after, m) == if m == n then queue else At(before, m);
    }
  }

  class Broker {
    var pending: map<string, seq<Command>>
    var futures: map<string, Future>
    var counter: nat
    ghost var known: set<Future>
    ghost var books: Books
    ghost var system: System

    ghost predicate Valid()
      reads this, known
    {
      Tied() && Consistent(books, counter, system)
    }

    /** The record is of this broker and of the futures as they stand. */
    ghost predicate Tied()
      reads this, known
    {
      && books.pending == pending && system.futures == futures
      && system.view.Keys == known && forall f :: f in known ==> Shows(system.view, f)
    }

    constructor ()
      ensures Valid() && known == {} && books.delivered == map[]
      ensures system == System([], map[], map[])
    {
      pending, futures, counter := map[], map[], 0;
      known, books, system := {}, Books(map[], map[], map[]), System([], map[], map[]);
    }

    /** Hand the agent everything queued for it. */
    method Take(node: string) returns (commands: seq<Command>)
      requires Valid()
      modifies this
      ensures Valid() && known == old(known) && counter == old(counter)
      ensures commands == Pick(old(system).ledger, node, Queued)
      ensures forall c :: c in commands ==> Ordered(old(system).ledger, node, c)
      ensures system == Apply(old(system), Takes(node))
      ensures At(books.delivered, node) == At(old(books).delivered, node) + commands
    {
      TakeStep(books, counter, system, node);
      QueuedOrdered(system, node);
      commands := At(pending, node);
      pending := pending - {node};
      books := Books(pending, books.delivered[node := At(books.delivered, node) + commands],
                     books.cuts[node := |system.ledger|]);
      system := Apply(system, Takes(node));
    }

    /** `futures.pop(id, None)`, then `set_result` unless it is done. */
    method PopAndSet(id: string, answer: Answer, ghost agent: Option<string>)
      requires Tied() && (id in futures ==> futures[id] in known)
      modifies this`futures, this`system, known
      ensures Tied() && known == old(known)
      ensures system == System(old(system).ledger, old(system).futures - {id},
                               Popped(old(system).view, old(system).futures, id, Seen(Done(answer), agent)))
    {
      system := System(system.ledger, system.futures - {id},
                       Popped(system.view, system.futures, id, Seen(Done(answer), agent)));
      if id in futures {
        var fut := futures[id];
        futures := futures - {id};
        assert Shows(old(system).view, fut);
        if fut.state == Waiting {
          fut.SetResult(answer, agent);
        }
      }
    }

    /** Queue a command and return its id and the future that will carry its answer. */
    method Submit(node: string, action: string, payload: map<string, string>)
      returns (id: string, fut: Future, ghost command: Command)
      requires Valid() && "id" !in payload
      modifies this, known
      ensures Valid() && fresh(fut) && fut.state == Waiting && known == old(known) + {fut}
      ensures counter == old(counter) + 1 && id == Id(node, counter)
      ensures system == Apply(old(system), Submits(Entry(node, id, command, Queued, fut, Asked(action, payload))))
      ensures Carries(command, id, Asked(action, payload))
      // It is the last of at most 64 in its queue, a full one having lost its oldest.
      ensures var queue := At(old(pending), node);
              pending == old(pending)[node := (if |queue| >= 64 then queue[1..] else queue) + [command]] &&
              |pending[node]| <= 64
      ensures books.delivered == old(books).delivered
    {
      var built := Build(Id(node, counter + 1), action, payload);
      command := built;
      MakeRoom(node);
      id, fut := Register(node, built, Asked(action, payload));
    }

    /** One more would be too many: the oldest goes. */
    method MakeRoom(node: string)
      requires Valid()
      modifies this, known
      ensures Valid() && counter == old(counter) && known == old(known) && |At(pending, node)| < MAX_PENDING
      ensures var queue := At(old(pending), node);
              pending == if |queue| >= 64 then old(pending)[node := queue[1..]] else old(pending)
      ensures system == if |Pick(old(system).ledger, node, Queued)| >= MAX_PENDING then Dropped(old(system), node)
                        else old(system)
      ensures books.delivered == old(books).delivered
    {
      assert NodeMatches(books, system.ledger, node);
      if |At(pending, node)| + 1 > MAX_PENDING {
        DropOldest(node);
      }
    }

    /** A full queue: its oldest command is dropped and answered with a 503. */
    method DropOldest(node: string)
      requires Valid() && |At(pending, node)| == MAX_PENDING
      modifies this, known
      ensures Valid() && counter == old(counter) && known == old(known)
      ensures Pick(old(system).ledger, node, Queued) == old(At(pending, node))
      ensures old(At(pending, node)) != [] && pending == old(pending)[node := At(old(pending), node)[1..]]
      ensures system == Dropped(old(system), node) && |At(pending, node)| < MAX_PENDING
      ensures books.delivered == old(books).delivered
    {
      DropStep(books, counter, system, node);
      ghost var after := Dropped(system, node);
      var dropped := pending[node][0];
      PopAndSet(dropped.id, Overflow503(dropped.id), None);
      pending := pending[node := pending[node][1..]];
      books := books.(pending := pending);
      system := after;
    }

    /** Room in the queue: the command is stored and its future registered. */
    method Register(node: string, command: Command, ghost asked: Asked) returns (id: string, fut: Future)
      requires Valid() && |At(pending, node)| < MAX_PENDING && Carries(command, Id(node, counter + 1), asked)
      modifies this
      ensures Valid() && fresh(fut) && fut.state == Waiting && known == old(known) + {fut}
      ensures counter == old(counter) + 1 && id == Id(node, counter)
      ensures system == Appended(old(system), Entry(node, id, command, Queued, fut, asked))
      ensures pending == old(pending)[node := At(old(pending), node) + [command]]
      ensures books.delivered == old(books).delivered
    {
      id := Id(node, counter + 1);
      fut := new Future(counter);
      ghost var e := Entry(node, id, command, Queued, fut, asked);
      AppendStep(books, counter, system, e);
      counter := counter + 1;
      pending := pending[node := At(pending, node) + [command]];
      futures := futures[id := fut];
      known := known + {fut};
      books := books.(pending := pending);
      system := Appended(system, e);
    }

    /** Deliver an agent's results, to its own commands only. */
    method Resolve(agent: string, replies: seq<Reply>)
      requires Valid()
      modifies this`futures, this`system, known
      ensures Valid() && known == old(known)
      ensures system == Apply(old(system), Resolves(agent, replies))
    {
      var k := 0;
      while k < |replies|
        invariant 0 <= k <= |replies|
        invariant Valid() && known == old(known)
        invariant system == Apply(old(system), Resolves(agent, replies[..k]))
      {
        var reply := replies[k];
        assert replies[..k + 1][..k] == replies[..k];
        if reply.Dict? && StartsWith(reply.id, agent + ":") {
          ReplyStep(books, counter, system, agent, reply);
          PopAndSet(reply.id, FromAgent(reply), Some(agent));
        }
        k := k + 1;
      }
      assert replies[..k] == replies;
    }

    /** The request's wait runs out: its future is abandoned, unless already answered. */
    method Abandon(fut: Future)
      requires Valid() && fut in known
      modifies fut, this`system
      ensures Valid() && system == Apply(old(system), Abandons(fut))
    {
      AbandonStep(books, counter, system, fut);
      assert Shows(system.view, fut);
      system := Apply(system, Abandons(fut));
      fut.Abandon();
    }

    /** A request gave up: its future is forgotten and, still queued, its command too. */
    method Cancel(id: string)
      requires Valid()
      modifies this
      ensures Valid() && known == old(known) && counter == old(counter)
      ensures system == Apply(old(system), Cancels(id))
      ensures books.delivered == old(books).delivered
    {
      QueuesNotEmpty(books, system.ledger);
      var after := RemoveFromQueues(pending, id);
      CancelStep(books, counter, system, id, after);
      futures := futures - {id};
      pending := after;
      books := books.(pending := after);
      system := Apply(system, Cancels(id));
    }
  }

}
