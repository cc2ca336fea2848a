/** The registry of persistent host terminals (terminal_bridge.py, `NodeHostTerminalRegistry`)
    as a function on values. Terminals are numbered in order of creation. */
module HostRegistrySpec {
  import opened Options

  /** (node id, terminal id) */
  type Key = (string, string)

  /** An open terminal has a browser attached exactly when it has no detach time. */
  datatype Terminal = Terminal(key: Key, open: bool, detachedSince: Option<real>)

  /** `due`: retirements a delete or a reap still has to announce; `retired`: announced. */
  datatype State = State(
    terminals: seq<Terminal>,
    table: map<Key, nat>,
    due: multiset<nat>,
    retired: multiset<nat>)

  const EMPTY := State([], map[], multiset{}, multiset{})

  predicate IsOpen(s: State, k: nat) { k < |s.terminals| && s.terminals[k].open }

  /** The open terminals of a node the registry counts before opening another one. */
  function Active(s: State, node: string): set<nat> {
    set k | k in s.table.Values && IsOpen(s, k) && s.terminals[k].key.0 == node
  }

  function Created(s: State, key: Key, now: real): State {
    s.(terminals := s.terminals + [Terminal(key, true, Some(now))], table := s.table[key := |s.terminals|])
  }

  /** `get_or_create`: the open terminal, or a new one below the cap when the node is
      reachable; otherwise ConnectionError and no change. */
  function GetOrCreate(s: State, cap: nat, key: Key, reachable: bool, now: real): State {
    if key in s.table && IsOpen(s, s.table[key]) then s
    else if |Active(s, key.0)| >= cap || !reachable then s
    else Created(s, key, now)
  }

  function Closed(ts: seq<Terminal>, k: nat): seq<Terminal> {
    if k < |ts| then ts[k := ts[k].(open := false)] else ts
  }

  /** `delete` up to the close; the announcement follows when the pump has ended. */
  function Delete(s: State, key: Key): State {
    if key in s.table then
      s.(terminals := Closed(s.terminals, s.table[key]), table := s.table - {key},
         due := s.due + multiset{s.table[key]})
    else s
  }

  /** A delayed announcement. */
  function Announce(s: State, k: nat): State {
    if k in s.due then s.(due := s.due - multiset{k}, retired := s.retired + multiset{k}) else s
  }

  /** The node reports the shell's exit. */
  function Exit(s: State, k: nat): State { s.(terminals := Closed(s.terminals, k)) }

  /** `_remove_finished`, when the pump of a closed terminal has ended. */
  function RemoveFinished(s: State, k: nat): State {
    if k < |s.terminals| && !s.terminals[k].open && Holds(s, k) then
      s.(table := s.table - {s.terminals[k].key}, retired := s.retired + multiset{k})
    else s
  }

  function Attach(s: State, k: nat): State {
    if IsOpen(s, k) then s.(terminals := s.terminals[k := s.terminals[k].(detachedSince := None)]) else s
  }

  function Detach(s: State, k: nat, now: real): State {
    if k < |s.terminals| && s.terminals[k].detachedSince.None? then
      s.(terminals := s.terminals[k := s.terminals[k].(detachedSince := Some(now))])
    else s
  }

  // ---- the reaper ----

  /** Nobody has watched this terminal for the whole TTL. */
  predicate Overdue(t: Terminal, now: real, ttl: real) {
    t.open && t.detachedSince.Some? && t.detachedSince.value <= now - ttl
  }

  /** Closed, or overdue with no work running in it. */
  predicate Expired(t: Terminal, busy: set<Key>, now: real, ttl: real) {
    !t.open || (Overdue(t, now, ttl) && t.key !in busy)
  }

  /** An overdue terminal with work in it gets a new detach time. */
  function Clocked(t: Terminal, busy: set<Key>, now: real, ttl: real): Terminal {
    if !Expired(t, busy, now, ttl) && Overdue(t, now, ttl) then t.(detachedSince := Some(now)) else t
  }

  /** Terminal `k` is the one in the table under its key. */
  predicate Holds(s: State, k: nat)
    requires k < |s.terminals|
  {
    s.terminals[k].key in s.table && s.table[s.terminals[k].key] == k
  }

  /** The terminals when the tick has looked at the keys `done` and closed the keys `shut`. */
  function Swept(s: State, done: set<Key>, shut: set<Key>, busy: set<Key>, now: real, ttl: real): seq<Terminal> {
    seq(|s.terminals|, k requires 0 <= k < |s.terminals| =>
      var t := s.terminals[k];
      if !Holds(s, k) then t
      else if t.key in shut then t.(open := false)
      else if t.key in done then Clocked(t, busy, now, ttl)
      else t)
  }

  function ExpiredKeys(s: State, busy: set<Key>, now: real, ttl: real): set<Key> {
    set key | key in s.table && s.table[key] < |s.terminals| && Expired(s.terminals[s.table[key]], busy, now, ttl)
  }

  /** One tick: expired terminals leave the table and are closed, overdue busy ones get a new
      clock; the announcements follow. `busy` is the hook's answer at this tick. */
  function Reap(s: State, busy: set<Key>, now: real, ttl: real): State {
    var gone := ExpiredKeys(s, busy, now, ttl);
    State(Swept(s, s.table.Keys, gone, busy, now, ttl), s.table - gone,
      s.due + Owed(s.table, gone), s.retired)
  }

  /** One retirement for each terminal under these keys. */
  function Owed(table: map<Key, nat>, gone: set<Key>): multiset<nat> {
    multiset(set key | key in gone && key in table :: table[key])
  }

  // ---- runs ----

  datatype Event =
    | EGetOrCreate(key: Key, reachable: bool, now: real)
    | EDelete(key: Key)
    | EAnnounce(k: nat)
    | EExit(k: nat)
    | ERemoveFinished(k: nat)
    | EAttach(k: nat)
    | EDetach(k: nat, now: real)
    | EReap(busy: set<Key>, now: real)

  function After(s: State, cap: nat, ttl: real, e: Event): State {
    match e
    case EGetOrCreate(key, reachable, now) => GetOrCreate(s, cap, key, reachable, now)
    case EDelete(key) => Delete(s, key)
    case EAnnounce(k) => Announce(s, k)
    case EExit(k) => Exit(s, k)
    case ERemoveFinished(k) => RemoveFinished(s, k)
    case EAttach(k) => Attach(s, k)
    case EDetach(k, now) => Detach(s, k, now)
    case EReap(busy, now) => Reap(s, busy, now, ttl)
  }

  function Run(cap: nat, ttl: real, es: seq<Event>): State {
    if es == [] then EMPTY else After(Run(cap, ttl, es[..|es| - 1]), cap, ttl, es[|es| - 1])
  }

  // ---- the invariant ----

  /** The table holds each terminal under its own key, and every open terminal. */
  ghost predicate Tabled(s: State) {
    && (forall key :: key in s.table ==> s.table[key] < |s.terminals| && s.terminals[s.table[key]].key == key)
    && (forall k :: 0 <= k < |s.terminals| && s.terminals[k].open ==>
          s.terminals[k].key in s.table && s.table[s.terminals[k].key] == k)
  }

  /** All open terminals of a node, wherever they are. */
  function OpenOf(s: State, node: string): set<nat> {
    set k | 0 <= k < |s.terminals| && s.terminals[k].open && s.terminals[k].key.0 == node
  }

  ghost predicate WithinCap(s: State, cap: nat) {
    forall node :: |OpenOf(s, node)| <= cap
  }

  /** A terminal whose retirement is due or announced is closed and out of the table, and has
      at most one retirement. */
  ghost predicate RetiredOnce(s: State) {
    forall k :: k in s.due || k in s.retired ==>
      && k < |s.terminals| && !s.terminals[k].open
      && k !in s.table.Values
      && s.due[k] + s.retired[k] <= 1
  }

  lemma ActiveIsOpenOf(s: State, node: string)
    requires Tabled(s)
    ensures Active(s, node) == OpenOf(s, node)
  {
    forall k | k in OpenOf(s, node) ensures k in Active(s, node) {
      assert s.table[s.terminals[k].key] == k;
    }
  }

  /** The part of the active terminals outside the keys still to be looked at. */
  function Counted(s: State, node: string, todo: set<Key>): set<nat> {
    set k | k in Active(s, node) && s.terminals[k].key !in todo
  }

  lemma CountOneMore(s: State, node: string, todo: set<Key>, key: Key)
    requires Tabled(s) && todo <= s.table.Keys && key in todo
    ensures s.table[key] !in Counted(s, node, todo)
    ensures Counted(s, node, todo - {key}) ==
      Counted(s, node, todo) + if IsOpen(s, s.table[key]) && key.0 == node then {s.table[key]} else {}
  {
    assert s.table[key] in s.table.Values;
    forall k | k in Active(s, node) && s.terminals[k].key == key ensures k == s.table[key] {
      var other :| other in s.table && s.table[other] == k;
    }
  }

  lemma TabledKey(s: State, key: Key)
    requires Tabled(s) && key in s.table
    ensures s.table[key] < |s.terminals| && s.terminals[s.table[key]].key == key
  {
  }

  lemma CountedAllOrNone(s: State, node: string)
    requires Tabled(s)
    ensures Counted(s, node, {}) == Active(s, node)
    ensures Counted(s, node, s.table.Keys) == {}
  {
    forall k | k in Active(s, node) ensures s.terminals[k].key in s.table {
      var other :| other in s.table && s.table[other] == k;
    }
  }

  lemma SubsetIsSmaller(a: set<nat>, b: set<nat>)
    requires a <= b
    ensures |a| <= |b|
  {
    if a != b {
      assert b == a + (b - a);
    }
  }

  /** Steps that open nothing keep the cap. */
  lemma FewerOpenKeepsCap(s: State, t: State, cap: nat)
    requires WithinCap(s, cap) && |t.terminals| == |s.terminals|
    requires forall k :: 0 <= k < |s.terminals| ==>
      t.terminals[k].key == s.terminals[k].key && (t.terminals[k].open ==> s.terminals[k].open)
    ensures WithinCap(t, cap)
  {
    forall node ensures |OpenOf(t, node)| <= cap {
      SubsetIsSmaller(OpenOf(t, node), OpenOf(s, node));
    }
  }

  lemma OpenAfterCreate(s: State, key: Key, now: real, node: string)
    ensures OpenOf(Created(s, key, now), node) == OpenOf(s, node) + if node == key.0 then {|s.terminals|} else {}
  {
  }

  lemma CreateKeepsCap(s: State, cap: nat, key: Key, now: real)
    requires Tabled(s) && WithinCap(s, cap) && |Active(s, key.0)| < cap
    ensures WithinCap(Created(s, key, now), cap)
  {
    hide OpenOf, Tabled, Active, Created;
    ActiveIsOpenOf(s, key.0);
    forall node ensures |OpenOf(Created(s, key, now), node)| <= cap {
      OpenAfterCreate(s, key, now, node);
    }
  }

  lemma StepKeepsCap(s: State, cap: nat, ttl: real, e: Event)
    requires Tabled(s) && WithinCap(s, cap)
    ensures WithinCap(After(s, cap, ttl, e), cap)
  {
    hide WithinCap, Tabled, Active, Created, Reap;
    match e
    case EReap(busy, now) =>
      SweptIs(s, s.table.Keys, ExpiredKeys(s, busy, now, ttl), busy, now, ttl);
      ReapIs(s, busy, now, ttl);
      FewerOpenKeepsCap(s, After(s, cap, ttl, e), cap);
    case EGetOrCreate(key, reachable, now) =>
      if After(s, cap, ttl, e) != s { CreateKeepsCap(s, cap, key, now); }
    case _ => FewerOpenKeepsCap(s, After(s, cap, ttl, e), cap);
  }

  lemma SweptIs(s: State, done: set<Key>, shut: set<Key>, busy: set<Key>, now: real, ttl: real)
    ensures var ts := Swept(s, done, shut, busy, now, ttl);
      && |ts| == |s.terminals|
      && forall k :: 0 <= k < |ts| ==>
        && ts[k].key == s.terminals[k].key
        && (ts[k].open <==> s.terminals[k].open && !(Holds(s, k) && ts[k].key in shut))
  {
  }

  lemma ReapKeepsTable(s: State, busy: set<Key>, now: real, ttl: real)
    requires Tabled(s) && RetiredOnce(s)
    ensures Tabled(Reap(s, busy, now, ttl)) && RetiredOnce(Reap(s, busy, now, ttl))
  {
    hide Swept, Expired, RetiredOnce, Tabled;
    var t, gone := Reap(s, busy, now, ttl), ExpiredKeys(s, busy, now, ttl);
    SweptIs(s, s.table.Keys, gone, busy, now, ttl);
    ExpiredAreDue(s, t, gone);
  }

  /** Terminals that left the table and were closed, with their retirements due. */
  lemma ExpiredAreDue(s: State, t: State, gone: set<Key>)
    requires Tabled(s) && RetiredOnce(s) && gone <= s.table.Keys
    requires |t.terminals| == |s.terminals|
    requires forall k :: 0 <= k < |t.terminals| ==>
      && t.terminals[k].key == s.terminals[k].key
      && (t.terminals[k].open <==> s.terminals[k].open && !(Holds(s, k) && t.terminals[k].key in gone))
    requires t.table == s.table - gone && t.due == s.due + Owed(s.table, gone) && t.retired == s.retired
    ensures Tabled(t) && RetiredOnce(t)
  {
    forall key | key in s.table ensures s.table[key] in s.table.Values {
    }
    forall k | k in t.table.Values ensures k in s.table.Values && s.terminals[k].key !in gone {
      var key :| key in t.table && t.table[key] == k;
    }
  }

  lemma StepKeepsTable(s: State, cap: nat, ttl: real, e: Event)
    requires Tabled(s) && RetiredOnce(s)
    ensures Tabled(After(s, cap, ttl, e)) && RetiredOnce(After(s, cap, ttl, e))
  {
    hide Tabled, RetiredOnce, Reap, Created, Delete, RemoveFinished, Active;
    match e
    case EGetOrCreate(key, reachable, now) =>
      if After(s, cap, ttl, e) != s { CreateKeepsTable(s, key, now); }
    case EDelete(key) => DeleteKeepsTable(s, key);
    case EAnnounce(k) => AnnounceKeepsTable(s, k);
    case EExit(k) => FieldsKeepTable(s, After(s, cap, ttl, e));
    case ERemoveFinished(k) => RemoveKeepsTable(s, k);
    case EAttach(k) => FieldsKeepTable(s, After(s, cap, ttl, e));
    case EDetach(k, now) => FieldsKeepTable(s, After(s, cap, ttl, e));
    case EReap(busy, now) => ReapKeepsTable(s, busy, now, ttl);
  }

  lemma CreateKeepsTable(s: State, key: Key, now: real)
    requires Tabled(s) && RetiredOnce(s)
    requires key in s.table ==> !IsOpen(s, s.table[key])
    ensures Tabled(Created(s, key, now)) && RetiredOnce(Created(s, key, now))
  {
    var t := Created(s, key, now);
    forall k | k in t.table.Values ensures k in s.table.Values || k == |s.terminals| {
      var other :| other in t.table && t.table[other] == k;
    }
  }

  lemma AnnounceKeepsTable(s: State, k: nat)
    requires Tabled(s) && RetiredOnce(s)
    ensures Tabled(Announce(s, k)) && RetiredOnce(Announce(s, k))
  {
  }

  /** Closing a terminal or moving its clock leaves the table in order. */
  lemma FieldsKeepTable(s: State, t: State)
    requires Tabled(s) && RetiredOnce(s)
    requires t == s.(terminals := t.terminals) && |t.terminals| == |s.terminals|
    requires forall k :: 0 <= k < |s.terminals| ==>
      t.terminals[k].key == s.terminals[k].key && (t.terminals[k].open ==> s.terminals[k].open)
    ensures Tabled(t) && RetiredOnce(t)
  {
    assert t.table == s.table && t.due == s.due && t.retired == s.retired;
  }

  lemma DeleteKeepsTable(s: State, key: Key)
    requires Tabled(s) && RetiredOnce(s)
    ensures Tabled(Delete(s, key)) && RetiredOnce(Delete(s, key))
  {
    if key in s.table {
      var t, k0 := Delete(s, key), s.table[key];
      assert k0 in s.table.Values;
      forall k | k in t.table.Values ensures k in s.table.Values && k != k0 {
        var other :| other in t.table && t.table[other] == k;
        assert s.terminals[k].key == other;
      }
    }
  }

  lemma RemoveKeepsTable(s: State, k: nat)
    requires Tabled(s) && RetiredOnce(s)
    ensures Tabled(RemoveFinished(s, k)) && RetiredOnce(RemoveFinished(s, k))
  {
    var t := RemoveFinished(s, k);
    if t != s {
      assert s.table[s.terminals[k].key] in s.table.Values;
      forall j | j in t.table.Values ensures j in s.table.Values && j != k {
        var other :| other in t.table && t.table[other] == j;
        assert s.terminals[j].key == other;
      }
    }
  }

  /** All of it: the registry knows every open terminal, there are no more than the cap
      allows, and each is retired at most once. */
  ghost predicate Good(s: State, cap: nat) {
    Tabled(s) && RetiredOnce(s) && WithinCap(s, cap)
  }

  lemma ReapKeepsGood(s: State, cap: nat, busy: set<Key>, now: real, ttl: real)
    requires Good(s, cap)
    ensures Good(Reap(s, busy, now, ttl), cap)
  {
    hide Good, Reap;
    StepKeepsGood(s, cap, ttl, EReap(busy, now));
  }

  /** The parts of a tick. */
  lemma ReapIs(s: State, busy: set<Key>, now: real, ttl: real)
    ensures var gone := ExpiredKeys(s, busy, now, ttl);
      Reap(s, busy, now, ttl) ==
        State(Swept(s, s.table.Keys, gone, busy, now, ttl), s.table - gone,
          s.due + Owed(s.table, gone), s.retired)
  {
  }

  lemma KeysShift(keys: set<Key>, todo: set<Key>, key: Key)
    requires todo <= keys && key in todo
    ensures keys - (todo - {key}) == keys - todo + {key}
  {
  }

  lemma GoodIsTabled(s: State, cap: nat)
    requires Good(s, cap)
    ensures Tabled(s)
  {
  }

  lemma StepKeepsGood(s: State, cap: nat, ttl: real, e: Event)
    requires Good(s, cap)
    ensures Good(After(s, cap, ttl, e), cap)
  {
    hide Tabled, WithinCap, RetiredOnce, After;
    StepKeepsCap(s, cap, ttl, e);
    StepKeepsTable(s, cap, ttl, e);
  }

  // ---- the tick, one terminal at a time ----

  lemma SweepOne(s: State, done: set<Key>, key: Key, busy: set<Key>, now: real, ttl: real)
    requires Tabled(s) && key in s.table
    ensures s.table[key] < |s.terminals|
    ensures Swept(s, done + {key}, {}, busy, now, ttl) ==
      Swept(s, done, {}, busy, now, ttl)[s.table[key] := Clocked(s.terminals[s.table[key]], busy, now, ttl)]
  {
  }

  lemma SweepNotYet(s: State, done: set<Key>, key: Key, busy: set<Key>, now: real, ttl: real)
    requires Tabled(s) && key in s.table && key !in done
    ensures s.table[key] < |s.terminals| && s.terminals[s.table[key]].key == key
    ensures Swept(s, done, {}, busy, now, ttl)[s.table[key]] == s.terminals[s.table[key]]
  {
  }

  /** The expired keys outside those still to be looked at. */
  function ExpiredSoFar(s: State, todo: set<Key>, busy: set<Key>, now: real, ttl: real): set<Key> {
    ExpiredKeys(s, busy, now, ttl) - todo
  }

  lemma ExpireOneMore(s: State, todo: set<Key>, key: Key, busy: set<Key>, now: real, ttl: real)
    requires Tabled(s) && key in todo && key in s.table
    ensures s.table[key] < |s.terminals|
    ensures ExpiredSoFar(s, todo - {key}, busy, now, ttl) ==
      ExpiredSoFar(s, todo, busy, now, ttl) + if Expired(s.terminals[s.table[key]], busy, now, ttl) then {key} else {}
  {
  }

  lemma ExpiredAllOrNone(s: State, busy: set<Key>, now: real, ttl: real)
    ensures ExpiredSoFar(s, s.table.Keys, busy, now, ttl) == {}
    ensures ExpiredSoFar(s, {}, busy, now, ttl) == ExpiredKeys(s, busy, now, ttl) <= s.table.Keys
  {
  }

  lemma SweepNothing(s: State, busy: set<Key>, now: real, ttl: real)
    ensures Swept(s, {}, {}, busy, now, ttl) == s.terminals
  {
  }

  lemma ShutOne(s: State, shut: set<Key>, key: Key, busy: set<Key>, now: real, ttl: real)
    requires Tabled(s) && key in s.table && Expired(s.terminals[s.table[key]], busy, now, ttl)
    ensures Closed(Swept(s, s.table.Keys, shut, busy, now, ttl), s.table[key]) ==
      Swept(s, s.table.Keys, shut + {key}, busy, now, ttl)
  {
  }

  /** Over every run: the open terminals ever created for a node stay within the cap, the
      registry knows every open terminal, and each terminal is retired at most once, after it
      is closed and out of the table. */
  lemma {:induction false} EveryRunWithinCap(cap: nat, ttl: real, es: seq<Event>)
    ensures Good(Run(cap, ttl, es), cap)
  {
    hide Good, After;
    if es == [] {
      EmptyHolds(cap);
    } else {
      EveryRunWithinCap(cap, ttl, es[..|es| - 1]);
      StepKeepsGood(Run(cap, ttl, es[..|es| - 1]), cap, ttl, es[|es| - 1]);
    }
  }

  lemma EmptyHolds(cap: nat)
    ensures Good(EMPTY, cap)
  {
    forall node ensures |OpenOf(EMPTY, node)| <= cap {
      assert OpenOf(EMPTY, node) == {};
    }
  }

  // ---- what a tick does ----

  /** The reaper takes an open terminal exactly when no browser has been attached for the TTL
      and no work runs in it; it takes every closed one still in the table; any other keeps
      its place and stays open. */
  lemma ReapTakesExactly(s: State, busy: set<Key>, now: real, ttl: real, key: Key)
    requires Tabled(s) && key in s.table
    ensures var t, k := Reap(s, busy, now, ttl), s.table[key];
      && (key in t.table <==> !Expired(s.terminals[k], busy, now, ttl))
      && (key in t.table ==> t.table[key] == k && t.terminals[k].open)
      && (key !in t.table ==> k in t.due && !t.terminals[k].open)
      && (s.terminals[k].open && (s.terminals[k].detachedSince.None? || key in busy) ==> key in t.table)
  {
    var k := s.table[key];
    assert k in s.table.Values;
    if Expired(s.terminals[k], busy, now, ttl) {
      assert key in ExpiredKeys(s, busy, now, ttl);
      assert k in (set x | x in ExpiredKeys(s, busy, now, ttl) && x in s.table :: s.table[x]);
    }
  }

  datatype Tick = Tick(busy: set<Key>, now: real)

  /** The ticks of the reaper while nothing else happens. */
  function Ticks(s: State, ttl: real, ticks: seq<Tick>): State {
    if ticks == [] then s
    else
      var tick := ticks[|ticks| - 1];
      Reap(Ticks(s, ttl, ticks[..|ticks| - 1]), tick.busy, tick.now, ttl)
  }

  /** The terminal is in the table, open, and its clock reads `since`. */
  predicate Waiting(s: State, key: Key, since: real) {
    key in s.table && IsOpen(s, s.table[key]) && s.terminals[s.table[key]].detachedSince == Some(since)
  }

  lemma TickOnWaiting(s: State, busy: set<Key>, now: real, ttl: real, key: Key, since: real)
    requires Tabled(s) && Waiting(s, key, since)
    requires key in busy ==> now < since + ttl
    ensures now < since + ttl ==> Waiting(Reap(s, busy, now, ttl), key, since)
    ensures now >= since + ttl ==> key !in Reap(s, busy, now, ttl).table
  {
    ReapTakesExactly(s, busy, now, ttl, key);
    var k := s.table[key];
    assert k in s.table.Values;
    if now < since + ttl { assert Reap(s, busy, now, ttl).terminals[k] == s.terminals[k]; }
  }

  /** A tick that finds work in a terminal past its TTL sets the clock to its own time. */
  lemma BusyTerminalGetsNewClock(s: State, busy: set<Key>, now: real, ttl: real, key: Key)
    requires Tabled(s) && key in s.table && key in busy && Overdue(s.terminals[s.table[key]], now, ttl)
    ensures Waiting(Reap(s, busy, now, ttl), key, now)
  {
    ReapTakesExactly(s, busy, now, ttl, key);
    var t, k := Reap(s, busy, now, ttl), s.table[key];
    assert k in s.table.Values;
    assert t.terminals[k] == s.terminals[k].(detachedSince := Some(now));
  }

  /** When the tick at `now` is the last to restart the clock of a busy terminal, the terminal
      lives through the ticks that follow exactly when each comes less than a TTL after that
      tick - whenever the work ended. A full TTL after the work is kept exactly when no tick
      falls between the end of the one TTL and the end of the other. */
  lemma {:induction false} KeptAfterWorkIff(s: State, cap: nat, busy: set<Key>, now: real, ttl: real, key: Key,
                                            ticks: seq<Tick>)
    requires Good(s, cap) && key in s.table && key in busy && s.table[key] < |s.terminals|
    requires Overdue(s.terminals[s.table[key]], now, ttl)
    requires forall i :: 0 <= i < |ticks| && key in ticks[i].busy ==> ticks[i].now < now + ttl
    ensures var t := Ticks(Reap(s, busy, now, ttl), ttl, ticks);
      && Good(t, cap)
      && (key in t.table <==> forall i :: 0 <= i < |ticks| ==> ticks[i].now < now + ttl)
      && (key in t.table ==> Waiting(t, key, now))
  {
    hide Good, Reap, Waiting, Overdue, Tabled;
    GoodIsTabled(s, cap);
    if ticks == [] {
      ReapKeepsGood(s, cap, busy, now, ttl);
      BusyTerminalGetsNewClock(s, busy, now, ttl, key);
      WaitingIsTabled(Reap(s, busy, now, ttl), key, now);
    } else {
      var init, tick := ticks[..|ticks| - 1], ticks[|ticks| - 1];
      KeptAfterWorkIff(s, cap, busy, now, ttl, key, init);
      var t := Ticks(Reap(s, busy, now, ttl), ttl, init);
      ReapKeepsGood(t, cap, tick.busy, tick.now, ttl);
      ReapAddsNothing(t, tick.busy, tick.now, ttl);
      if key in t.table {
        GoodIsTabled(t, cap);
        TickOnWaiting(t, tick.busy, tick.now, ttl, key, now);
        if tick.now < now + ttl { WaitingIsTabled(Reap(t, tick.busy, tick.now, ttl), key, now); }
        assert forall i :: 0 <= i < |init| ==> ticks[i] == init[i];
      } else {
        var i :| 0 <= i < |init| && !(init[i].now < now + ttl);
        assert ticks[i] == init[i];
      }
    }
  }

  lemma WaitingIsTabled(s: State, key: Key, since: real)
    requires Waiting(s, key, since)
    ensures key in s.table
  {
  }

  lemma ReapAddsNothing(s: State, busy: set<Key>, now: real, ttl: real)
    ensures Reap(s, busy, now, ttl).table.Keys <= s.table.Keys
  {
  }

  /** For example: ticks every half TTL find work in a terminal without a browser until 3/2
      TTL; work that ends between then and 2 TTL leaves it less than a full TTL, because the
      tick at 2 TTL takes it. */
  lemma FullTtlCanBeBroken(cap: nat, ttl: real, key: Key, ends: real)
    requires cap >= 1 && ttl > 0.0 && ttl * 1.5 < ends <= ttl * 2.0
    ensures var es := [EGetOrCreate(key, true, 0.0), EReap({key}, ttl / 2.0), EReap({key}, ttl),
        EReap({key}, ttl * 1.5), EReap({}, ttl * 2.0)];
      && Waiting(Run(cap, ttl, es[..4]), key, ttl)
      && key !in Run(cap, ttl, es).table && ttl * 2.0 < ends + ttl
  {
    hide Run, Reap, Tabled, Good, GetOrCreate, Waiting;
    var es := [EGetOrCreate(key, true, 0.0), EReap({key}, ttl / 2.0), EReap({key}, ttl),
      EReap({key}, ttl * 1.5), EReap({}, ttl * 2.0)];
    assert es[..1] == [es[0]] && es[..5] == es;
    FirstOpens(cap, ttl, key, 0.0);
    WaitsThroughTick(cap, ttl, es, 1, key, 0.0);
    WaitsThroughTick(cap, ttl, es, 2, key, 0.0);
    WaitsThroughTick(cap, ttl, es, 3, key, ttl);
    WaitsThroughTick(cap, ttl, es, 4, key, ttl);
  }

  /** What tick `n` of a run does to a waiting terminal. */
  lemma WaitsThroughTick(cap: nat, ttl: real, es: seq<Event>, n: nat, key: Key, since: real)
    requires n < |es| && es[n].EReap? && Waiting(Run(cap, ttl, es[..n]), key, since)
    ensures var t := Run(cap, ttl, es[..n + 1]);
      if es[n].now < since + ttl then Waiting(t, key, since)
      else if key in es[n].busy then Waiting(t, key, es[n].now)
      else key !in t.table
  {
    hide Reap, Tabled, Good, Waiting;
    var s, busy, now := Run(cap, ttl, es[..n]), es[n].busy, es[n].now;
    assert es[..n + 1][..n] == es[..n];
    EveryRunWithinCap(cap, ttl, es[..n]);
    GoodIsTabled(s, cap);
    if now >= since + ttl && key in busy {
      WaitingIsOverdue(s, key, since, now, ttl);
      BusyTerminalGetsNewClock(s, busy, now, ttl, key);
    } else {
      TickOnWaiting(s, busy, now, ttl, key, since);
    }
  }

  lemma FirstOpens(cap: nat, ttl: real, key: Key, now: real)
    requires cap >= 1
    ensures Waiting(Run(cap, ttl, [EGetOrCreate(key, true, now)]), key, now)
  {
    assert [EGetOrCreate(key, true, now)][..0] == [];
    assert |Active(EMPTY, key.0)| == 0;
    assert GetOrCreate(EMPTY, cap, key, true, now) == Created(EMPTY, key, now);
    assert Created(EMPTY, key, now).terminals[0] == Terminal(key, true, Some(now));
  }

  lemma WaitingIsOverdue(s: State, key: Key, since: real, now: real, ttl: real)
    requires Waiting(s, key, since) && since <= now - ttl
    ensures key in s.table && s.table[key] < |s.terminals|
    ensures Overdue(s.terminals[s.table[key]], now, ttl)
  {
  }

  // ---- whom an announcement reaches ----

  /** The table holds the newest terminal of each key it holds. */
  ghost predicate Newest(s: State) {
    forall k :: 0 <= k < |s.terminals| && s.terminals[k].key in s.table ==> k <= s.table[s.terminals[k].key]
  }

  lemma StepKeepsNewest(s: State, cap: nat, ttl: real, e: Event)
    requires Newest(s)
    ensures Newest(After(s, cap, ttl, e))
  {
    hide Active, Reap, Created;
    match e
    case EGetOrCreate(key, reachable, now) => if After(s, cap, ttl, e) != s { CreateKeepsNewest(s, key, now); }
    case EReap(busy, now) =>
      ReapIs(s, busy, now, ttl);
      SweptIs(s, s.table.Keys, ExpiredKeys(s, busy, now, ttl), busy, now, ttl);
    case _ =>
  }

  lemma CreateKeepsNewest(s: State, key: Key, now: real)
    requires Newest(s)
    ensures Newest(Created(s, key, now))
  {
  }

  lemma {:induction false} RunKeepsNewest(cap: nat, ttl: real, es: seq<Event>)
    ensures Newest(Run(cap, ttl, es))
  {
    hide After, Newest;
    if es == [] {
      EmptyIsNewest();
    } else {
      RunKeepsNewest(cap, ttl, es[..|es| - 1]);
      StepKeepsNewest(Run(cap, ttl, es[..|es| - 1]), cap, ttl, es[|es| - 1]);
    }
  }

  lemma EmptyIsNewest()
    ensures Newest(EMPTY)
  {
  }

  /** A terminal is open under this key. */
  predicate InUse(s: State, key: Key) { key in s.table && IsOpen(s, s.table[key]) }

  /** The hook is called with a key, not with a terminal. In every reachable state an
      announcement that is due for terminal `k` reaches a key in use exactly when a terminal
      created after `k` is open under the same key. */
  lemma AnnouncementHitsIff(cap: nat, ttl: real, es: seq<Event>, k: nat)
    requires k in Run(cap, ttl, es).due
    ensures var s := Run(cap, ttl, es);
      && k < |s.terminals|
      && (InUse(s, s.terminals[k].key) <==>
            exists j :: k < j < |s.terminals| && s.terminals[j].open && s.terminals[j].key == s.terminals[k].key)
  {
    hide Run;
    EveryRunWithinCap(cap, ttl, es);
    RunKeepsNewest(cap, ttl, es);
    var s := Run(cap, ttl, es);
    var key := s.terminals[k].key;
    if InUse(s, key) {
      var j := s.table[key];
      assert j in s.table.Values;
      assert s.terminals[j].key == key && k <= j && k != j;
    }
  }

  /** For example: the key is taken again between the pop and the announcement. */
  lemma AnnouncementCanHitSuccessor(cap: nat, ttl: real, key: Key, now: real)
    requires cap >= 1
    ensures var es := [EGetOrCreate(key, true, now), EDelete(key), EGetOrCreate(key, true, now)];
      0 in Run(cap, ttl, es).due && Run(cap, ttl, es).terminals[0].key == key && InUse(Run(cap, ttl, es), key)
  {
    hide GetOrCreate, Delete, InUse;
    var es := [EGetOrCreate(key, true, now), EDelete(key), EGetOrCreate(key, true, now)];
    assert es[..0] == [] && es[..1][..0] == [] && es[..2][..1] == es[..1] && es[..3] == es;
    assert es[..1] == [es[0]] && es[..2] == [es[0], es[1]];
    OpensWhenIdle(EMPTY, cap, key, now);
    var first := Created(EMPTY, key, now);
    assert Run(cap, ttl, es[..1]) == first;
    DeletesOnly(first, key);
    var second := Delete(first, key);
    assert Run(cap, ttl, es[..2]) == second;
    OpensWhenIdle(second, cap, key, now);
  }

  lemma OpensWhenIdle(s: State, cap: nat, key: Key, now: real)
    requires cap >= 1 && s.table == map[]
    ensures GetOrCreate(s, cap, key, true, now) == Created(s, key, now)
    ensures InUse(Created(s, key, now), key)
  {
    assert Active(s, key.0) == {};
  }

  lemma DeletesOnly(s: State, key: Key)
    requires s.table.Keys == {key} && s.table[key] == 0 && |s.terminals| == 1 && s.terminals[0].key == key
    ensures var t := Delete(s, key);
      t.table == map[] && 0 in t.due && |t.terminals| == 1 && t.terminals[0].key == key
  {
  }

  // ---- opening and closing ----

  /** Opening a terminal: an open one under the key is kept; otherwise there is a new one, open
      and not yet watched, exactly when the node is reachable and has fewer open terminals
      than the cap, and else nothing changes. */
  lemma OpensIff(s: State, cap: nat, ttl: real, key: Key, reachable: bool, now: real)
    requires Good(s, cap)
    ensures var t := After(s, cap, ttl, EGetOrCreate(key, reachable, now));
      if InUse(s, key) then t == s
      else if reachable && |OpenOf(s, key.0)| < cap then
        && t.terminals == s.terminals + [Terminal(key, true, Some(now))]
        && t.table == s.table[key := |s.terminals|] && InUse(t, key)
        && t.due == s.due && t.retired == s.retired
      else t == s
  {
    hide Active, OpenOf, Good;
    GoodIsTabled(s, cap);
    ActiveIsOpenOf(s, key.0);
  }

  /** The exit of a shell closes its terminal and frees its slot under the cap, and no other. */
  lemma ExitFreesSlot(s: State, cap: nat, ttl: real, k: nat, node: string)
    requires IsOpen(s, k)
    ensures var t := After(s, cap, ttl, EExit(k));
      && !IsOpen(t, k)
      && OpenOf(t, node) == OpenOf(s, node) - {k}
      && (s.terminals[k].key.0 == node ==> |OpenOf(t, node)| == |OpenOf(s, node)| - 1)
  {
    assert s.terminals[k].key.0 == node ==> k in OpenOf(s, node);
  }

  /** A delete closes the terminal, forgets the key and owes one announcement. */
  lemma DeleteForgets(s: State, cap: nat, ttl: real, key: Key)
    requires Tabled(s) && key in s.table
    ensures var t, k := After(s, cap, ttl, EDelete(key)), s.table[key];
      key !in t.table && !IsOpen(t, k) && t.due == s.due + multiset{k} && t.retired == s.retired
  {
  }
}
