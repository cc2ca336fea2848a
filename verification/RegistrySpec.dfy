/** The registry of live connections (registry.py, `Registry`) as a function on values.
    Connections are numbered in the order they were registered. */
module RegistrySpec {
  import opened Options

  /** What the registry needs to know of a connection it once registered. */
  datatype Link = Link(node: string, connectedAt: real, lastBeat: Option<real>, closed: bool)

  /** `order` is the key order of the dictionary, `live` its values; `fired` lists the calls
      of `on_disconnect`, `arrived` the registrations of nodes that were absent. */
  datatype State = State(
    order: seq<string>,
    live: map<string, nat>,
    links: seq<Link>,
    arrived: seq<string>,
    fired: seq<string>)

  const EMPTY := State([], map[], [], [], [])

  function Closed(links: seq<Link>, k: nat): seq<Link> {
    if k < |links| then links[k := links[k].(closed := true)] else links
  }

  function Without(order: seq<string>, node: string): seq<string> {
    if order == [] then []
    else if order[0] == node then order[1..]
    else [order[0]] + Without(order[1..], node)
  }

  /** The node's connection is gone for good: closed, forgotten, and the hook fires. */
  function Removed(s: State, node: string): State
    requires node in s.live
  {
    State(Without(s.order, node), s.live - {node}, Closed(s.links, s.live[node]), s.arrived, s.fired + [node])
  }

  function Register(s: State, node: string, now: real): State {
    var link := Link(node, now, None, false);
    if node in s.live then
      s.(live := s.live[node := |s.links|], links := Closed(s.links, s.live[node]) + [link])
    else
      State(s.order + [node], s.live[node := |s.links|], s.links + [link], s.arrived + [node], s.fired)
  }

  /** `unregister(node, k)`; a number behind the links stands for a connection that was never
      registered. */
  function Unregister(s: State, node: string, k: nat): State {
    if node in s.live && s.live[node] == k then Removed(s, node)
    else s.(links := Closed(s.links, k))
  }

  function Disconnect(s: State, node: string): State {
    if node in s.live then Removed(s, node) else s
  }

  function NoteHeartbeat(s: State, k: nat, now: real): State {
    if k < |s.links| then s.(links := s.links[k := s.links[k].(lastBeat := Some(now))]) else s
  }

  predicate Stale(l: Link, now: real, timeout: real) {
    now - (if l.lastBeat.Some? then l.lastBeat.value else l.connectedAt) > timeout
  }

  function ReapOne(s: State, node: string, now: real, timeout: real): State {
    if node in s.live && s.live[node] < |s.links| && Stale(s.links[s.live[node]], now, timeout) then Removed(s, node)
    else s
  }

  /** The reaper's pass over a snapshot of the keys. */
  function ReapEach(s: State, nodes: seq<string>, now: real, timeout: real): State
    decreases |nodes|
  {
    if nodes == [] then s
    else ReapOne(ReapEach(s, nodes[..|nodes| - 1], now, timeout), nodes[|nodes| - 1], now, timeout)
  }

  function Reap(s: State, now: real, timeout: real): State {
    ReapEach(s, s.order, now, timeout)
  }

  // ---- the identity invariant ----

  predicate NoDuplicates(order: seq<string>) {
    forall i, j :: 0 <= i < j < |order| ==> order[i] != order[j]
  }

  /** Every key maps to an open connection of that node, every open connection is the one its
      node's key maps to, and the keys are in a definite order. */
  ghost predicate Sound(s: State) {
    Listed(s) && Linked(s)
  }

  ghost predicate Listed(s: State) {
    NoDuplicates(s.order) && (forall node :: node in s.order <==> node in s.live)
  }

  ghost predicate Linked(s: State) {
    && (forall node :: node in s.live ==>
          s.live[node] < |s.links| && s.links[s.live[node]].node == node && !s.links[s.live[node]].closed)
    && (forall k :: 0 <= k < |s.links| && !s.links[k].closed ==>
          s.links[k].node in s.live && s.live[s.links[k].node] == k)
  }

  function Count(log: seq<string>, node: string): nat {
    if log == [] then 0 else Count(log[..|log| - 1], node) + (if log[|log| - 1] == node then 1 else 0)
  }

  /** Arrivals and definitive removals of a node balance, up to the connection it has now. */
  ghost predicate Balanced(s: State) {
    forall node :: Count(s.arrived, node) == Count(s.fired, node) + (if node in s.live then 1 else 0)
  }

  lemma CountSnoc(log: seq<string>, x: string, node: string)
    ensures Count(log + [x], node) == Count(log, node) + (if x == node then 1 else 0)
  {
    assert (log + [x])[..|log|] == log;
  }

  lemma {:induction false} WithoutIs(order: seq<string>, node: string)
    requires NoDuplicates(order)
    ensures NoDuplicates(Without(order, node))
    ensures forall x :: x in Without(order, node) <==> x in order && x != node
  {
    if order != [] {
      var tail := order[1..];
      assert order == [order[0]] + tail;
      assert NoDuplicates(tail);
      assert order[0] !in tail;
      if order[0] != node {
        WithoutIs(tail, node);
        assert order[0] !in Without(tail, node);
      }
    }
  }

  lemma RemovedIsSound(s: State, node: string)
    requires Sound(s) && node in s.live
    ensures Sound(Removed(s, node))
  {
    WithoutIs(s.order, node);
  }

  lemma RemovedIsBalanced(s: State, node: string)
    requires Balanced(s) && node in s.live
    ensures Balanced(Removed(s, node))
  {
    var t := Removed(s, node);
    forall x ensures Count(t.arrived, x) == Count(t.fired, x) + (if x in t.live then 1 else 0) {
      CountSnoc(s.fired, node, x);
    }
  }

  lemma RegisterKeeps(s: State, node: string, now: real)
    requires Sound(s) && Balanced(s)
    ensures Sound(Register(s, node, now)) && Balanced(Register(s, node, now))
  {
    var t := Register(s, node, now);
    RegisterIsSound(s, node, now);
    forall x ensures Count(t.arrived, x) == Count(t.fired, x) + (if x in t.live then 1 else 0) {
      CountSnoc(s.arrived, node, x);
    }
  }

  lemma RegisterIsSound(s: State, node: string, now: real)
    requires Sound(s)
    ensures Sound(Register(s, node, now))
  {
    RegisterIsListed(s, node, now);
    RegisterIsLinked(s, node, now);
  }

  lemma RegisterIsListed(s: State, node: string, now: real)
    requires Listed(s)
    ensures Listed(Register(s, node, now))
  {
  }

  lemma RegisterIsLinked(s: State, node: string, now: real)
    requires Linked(s)
    ensures Linked(Register(s, node, now))
  {
    var t := Register(s, node, now);
    forall x | x in t.live
      ensures t.live[x] < |t.links| && t.links[t.live[x]].node == x && !t.links[t.live[x]].closed
    {
    }
  }

  lemma RemovedKeeps(s: State, node: string)
    requires Sound(s) && Balanced(s) && node in s.live
    ensures Sound(Removed(s, node)) && Balanced(Removed(s, node))
  {
    RemovedIsSound(s, node);
    RemovedIsBalanced(s, node);
  }

  lemma {:induction false} ReapEachKeeps(s: State, nodes: seq<string>, now: real, timeout: real)
    requires Sound(s) && Balanced(s)
    ensures Sound(ReapEach(s, nodes, now, timeout)) && Balanced(ReapEach(s, nodes, now, timeout))
    decreases |nodes|
  {
    hide Sound, Balanced, Removed;
    if nodes != [] {
      ReapEachKeeps(s, nodes[..|nodes| - 1], now, timeout);
      var before, node := ReapEach(s, nodes[..|nodes| - 1], now, timeout), nodes[|nodes| - 1];
      if node in before.live { RemovedKeeps(before, node); }
    }
  }

  // ---- runs ----

  /** `EUnregister`: a stream's handler tears down its own connection. */
  datatype Event =
    | ERegister(node: string, now: real)
    | EUnregister(k: nat)
    | EDisconnect(node: string)
    | EBeat(k: nat, now: real)
    | EReap(now: real, timeout: real)

  function After(s: State, e: Event): State {
    match e
    case ERegister(node, now) => Register(s, node, now)
    case EUnregister(k) => if k < |s.links| then Unregister(s, s.links[k].node, k) else s
    case EDisconnect(node) => Disconnect(s, node)
    case EBeat(k, now) => NoteHeartbeat(s, k, now)
    case EReap(now, timeout) => Reap(s, now, timeout)
  }

  function Run(es: seq<Event>): State {
    if es == [] then EMPTY else After(Run(es[..|es| - 1]), es[|es| - 1])
  }

  lemma StepKeeps(s: State, e: Event)
    requires Sound(s) && Balanced(s)
    ensures Sound(After(s, e)) && Balanced(After(s, e))
  {
    hide Removed, Register, Sound, Balanced, ReapEach;
    match e
    case ERegister(node, now) => RegisterKeeps(s, node, now);
    case EUnregister(k) => if k < |s.links| { UnregisterKeepsIff(s, s.links[k].node, k); }
    case EDisconnect(node) => if node in s.live { RemovedKeeps(s, node); }
    case EBeat(k, now) => BeatKeeps(s, k, now);
    case EReap(now, timeout) => ReapEachKeeps(s, s.order, now, timeout);
  }

  /** The connection is not live under another node id than the one given. */
  predicate Owns(s: State, node: string, k: nat) {
    k < |s.links| && !s.links[k].closed ==> s.links[k].node == node
  }

  /** A teardown keeps the registry in order exactly when it names the connection's own node,
      or a connection that is closed or was never registered: under another id it closes a
      connection that the registry goes on holding. */
  lemma UnregisterKeepsIff(s: State, node: string, k: nat)
    requires Sound(s) && Balanced(s)
    ensures Sound(Unregister(s, node, k)) <==> Owns(s, node, k)
    ensures Balanced(Unregister(s, node, k))
  {
    hide Removed, Balanced;
    if node in s.live && s.live[node] == k {
      RemovedKeeps(s, node);
    } else {
      ClosedIsBalanced(s, k);
      var t := Unregister(s, node, k);
      if Owns(s, node, k) {
        assert Listed(t);
      } else {
        assert t.links[t.live[s.links[k].node]].closed;
      }
    }
  }

  lemma ClosedIsBalanced(s: State, k: nat)
    requires Balanced(s)
    ensures Balanced(s.(links := Closed(s.links, k)))
  {
  }

  lemma BeatKeeps(s: State, k: nat, now: real)
    requires Sound(s) && Balanced(s)
    ensures Sound(NoteHeartbeat(s, k, now)) && Balanced(NoteHeartbeat(s, k, now))
  {
  }

  /** The registry theorem: in every reachable state each key maps to an open connection of
      its node, every other connection ever registered is closed, and each node's arrivals are
      its `on_disconnect` calls plus one if it is connected now. A reconnect that replaces a
      connection is no arrival and fires nothing. */
  lemma {:induction false} EveryRunIsSoundAndBalanced(es: seq<Event>)
    ensures Sound(Run(es)) && Balanced(Run(es))
  {
    hide Sound, Balanced, After;
    if es == [] {
      EmptyIsSound();
    } else {
      EveryRunIsSoundAndBalanced(es[..|es| - 1]);
      StepKeeps(Run(es[..|es| - 1]), es[|es| - 1]);
    }
  }

  lemma EmptyIsSound()
    ensures Sound(EMPTY) && Balanced(EMPTY)
  {
  }

  // ---- what a reap leaves ----

  /** Removing one node leaves every other node's connection as it was. */
  lemma RemovedSpares(s: State, node: string, other: string)
    requires Sound(s) && node in s.live && other != node
    ensures var t := Removed(s, node);
      && node !in t.live
      && (other in t.live <==> other in s.live)
      && (other in s.live ==>
            t.live[other] == s.live[other] < |t.links| && t.links[t.live[other]] == s.links[s.live[other]])
  {
  }

  /** Whether the snapshot already considered the node does not matter to the others. */
  lemma {:induction false} ReapEachKeepsExactly(s: State, nodes: seq<string>, now: real, timeout: real, node: string)
    requires Sound(s) && Balanced(s) && NoDuplicates(nodes)
    ensures var t := ReapEach(s, nodes, now, timeout);
      && (node in t.live <==>
            node in s.live && (node in nodes ==> !Stale(s.links[s.live[node]], now, timeout)))
      && (node in t.live ==> t.live[node] == s.live[node] < |t.links| && t.links[t.live[node]] == s.links[s.live[node]])
    decreases |nodes|
  {
    hide Balanced, Removed;
    if nodes != [] {
      var init, last := nodes[..|nodes| - 1], nodes[|nodes| - 1];
      ReapEachKeepsExactly(s, init, now, timeout, node);
      ReapEachKeeps(s, init, now, timeout);
      var before := ReapEach(s, init, now, timeout);
      assert node in nodes <==> node in init || node == last;
      if node != last && last in before.live {
        RemovedSpares(before, last, node);
      }
      if node == last && node in before.live {
        assert node !in init;
        RemovedForgets(before, node);
      }
    }
  }

  lemma RemovedForgets(s: State, node: string)
    requires node in s.live
    ensures node !in Removed(s, node).live
  {
  }

  /** `_connection_live` of service.py, at time `now` with timeout `limit`. */
  predicate LiveAt(connectedAt: real, lastBeat: Option<real>, now: real, limit: real) {
    var at := if lastBeat.None? || connectedAt > lastBeat.value then connectedAt else lastBeat.value;
    now - at <= limit
  }

  predicate IsLive(l: Link, now: real, limit: real) { LiveAt(l.connectedAt, l.lastBeat, now, limit) }

  /** The reaper and the dispatch check disagree about a connection exactly when its last
      heartbeat is older than its own connect time: then the reaper goes by the heartbeat. */
  lemma LivenessAgreesIff(l: Link, now: real, limit: real)
    ensures IsLive(l, now, limit) != !Stale(l, now, limit) <==>
      && l.lastBeat.Some? && l.lastBeat.value < l.connectedAt
      && now - l.lastBeat.value > limit && now - l.connectedAt <= limit
  {
  }

  /** Right after a reap the connected nodes are exactly the connected ones that the dispatch
      check accepts at that moment, each with its connection untouched. */
  lemma ReapLeavesTheLive(s: State, now: real, limit: real, node: string)
    requires Sound(s) && Balanced(s)
    requires forall k :: 0 <= k < |s.links| && s.links[k].lastBeat.Some? ==>
      s.links[k].connectedAt <= s.links[k].lastBeat.value
    ensures node in Reap(s, now, limit).live <==>
      node in s.live && IsLive(s.links[s.live[node]], now, limit)
    ensures node in Reap(s, now, limit).live ==> Reap(s, now, limit).live[node] == s.live[node]
  {
    hide Balanced, ReapEach;
    ReapEachKeepsExactly(s, s.order, now, limit, node);
    if node in s.live { LivenessAgreesIff(s.links[s.live[node]], now, limit); }
  }

  // ---- heartbeats come after the connect ----

  function TimeOf(e: Event): Option<real> {
    match e
    case ERegister(_, now) => Some(now)
    case EBeat(_, now) => Some(now)
    case EReap(now, _) => Some(now)
    case _ => None
  }

  /** The clock does not run backwards, and no event is later than `now`. */
  ghost predicate Timely(es: seq<Event>, now: real) {
    && (forall i :: 0 <= i < |es| && TimeOf(es[i]).Some? ==> TimeOf(es[i]).value <= now)
    && (forall i, j :: 0 <= i < j < |es| && TimeOf(es[i]).Some? && TimeOf(es[j]).Some? ==>
          TimeOf(es[i]).value <= TimeOf(es[j]).value)
  }

  predicate InOrder(l: Link, now: real) {
    l.connectedAt <= now && (l.lastBeat.Some? ==> l.connectedAt <= l.lastBeat.value <= now)
  }

  predicate AllInOrder(links: seq<Link>, now: real) {
    forall k :: 0 <= k < |links| ==> InOrder(links[k], now)
  }

  lemma {:induction false} ReapEachInOrder(s: State, nodes: seq<string>, now: real, timeout: real, at: real)
    requires AllInOrder(s.links, at)
    ensures AllInOrder(ReapEach(s, nodes, now, timeout).links, at)
    decreases |nodes|
  {
    if nodes != [] { ReapEachInOrder(s, nodes[..|nodes| - 1], now, timeout, at); }
  }

  /** What ReapLeavesTheLive asks of the links holds in every run with an orderly clock. */
  lemma {:induction false} BeatsFollowConnect(es: seq<Event>, now: real)
    requires Timely(es, now)
    ensures AllInOrder(Run(es).links, now)
  {
    hide Sound, Balanced, ReapEach;
    if es != [] {
      var init, e := es[..|es| - 1], es[|es| - 1];
      var at := if TimeOf(e).Some? then TimeOf(e).value else now;
      BeatsFollowConnect(init, at);
      var s := Run(init);
      match e
      case EReap(t, timeout) => ReapEachInOrder(s, s.order, t, timeout, at);
      case _ =>
    }
  }

  // ---- what the operations do for a node ----

  /** A registered node is connected by its new connection, open and fresh; nobody else's
      connection changes. */
  lemma RegisterConnects(s: State, node: string, now: real, other: string)
    requires Sound(s) && other != node
    ensures var t := After(s, ERegister(node, now));
      && node in t.live && t.live[node] == |s.links| && t.links == t.links[..|s.links|] + [Link(node, now, None, false)]
      && (other in t.live <==> other in s.live)
      && (other in s.live ==> t.live[other] == s.live[other] && t.links[t.live[other]] == s.links[s.live[other]])
  {
  }

  /** A forced disconnect, and the teardown of the live connection, close it, forget the node
      and call the hook with it once. */
  lemma RemovalForgets(s: State, node: string)
    requires Sound(s) && node in s.live
    ensures forall e :: e == EDisconnect(node) || e == EUnregister(s.live[node]) ==>
      var t := After(s, e);
      node !in t.live && node !in t.order && t.fired == s.fired + [node] && t.links[s.live[node]].closed
  {
    hide NoDuplicates, Without;
    WithoutIs(s.order, node);
  }

  /** A node that beat within the timeout outlives a reap, on the same open connection. */
  lemma BeatSurvivesReap(s: State, node: string, at: real, now: real, timeout: real)
    requires Sound(s) && Balanced(s) && node in s.live && now - at <= timeout
    ensures var k := s.live[node];
      var t := After(After(s, EBeat(k, at)), EReap(now, timeout));
      node in t.live && t.live[node] == k && k < |t.links| && !t.links[k].closed && t.links[k].lastBeat == Some(at)
  {
    hide Balanced, ReapEach;
    var k := s.live[node];
    var b := NoteHeartbeat(s, k, at);
    BeatKeeps(s, k, at);
    ReapEachKeepsExactly(b, b.order, now, timeout, node);
  }

  /** One that has been silent for longer, since its last beat or since it connected, does not. */
  lemma SilenceIsReaped(s: State, node: string, now: real, timeout: real)
    requires Sound(s) && Balanced(s) && node in s.live
    requires var l := s.links[s.live[node]];
      now - (if l.lastBeat.Some? then l.lastBeat.value else l.connectedAt) > timeout
    ensures node !in After(s, EReap(now, timeout)).live
  {
    hide Balanced, ReapEach;
    ReapEachKeepsExactly(s, s.order, now, timeout, node);
  }
}
