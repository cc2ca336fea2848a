/** `NodeHostTerminalRegistry` itself (terminal_bridge.py): a dictionary of terminal objects,
    changed in place under its lock, one method per critical section. */
module HostRegistry {
  import opened Bytes
  import opened Options
  import opened HostRegistrySpec
  import opened HostTerminals

  /** One call of the hook for each retired terminal, with its key. */
  ghost predicate Answers(announced: seq<Key>, retired: seq<nat>, all: seq<PersistentTerminal>) {
    && |announced| == |retired|
    && (forall i :: 0 <= i < |retired| ==>
          retired[i] < |all| && announced[i] == (all[retired[i]].nodeId, all[retired[i]].terminalId))
  }

  lemma AnswersGrows(announced: seq<Key>, retired: seq<nat>, all: seq<PersistentTerminal>, t: PersistentTerminal)
    requires Answers(announced, retired, all)
    ensures Answers(announced, retired, all + [t])
  {
  }

  class HostRegistry {
    const cap: nat
    const detachedTtl: real
    var terminals: map<Key, PersistentTerminal>
    /** The calls `on_retired` received. */
    var announced: seq<Key>
    /** Every terminal ever created, the place of the tabled ones in that list, the retirements
        due, and the terminals that were announced, in order. */
    ghost var all: seq<PersistentTerminal>
    ghost var place: map<Key, nat>
    ghost var due: multiset<nat>
    ghost var retired: seq<nat>

    ghost function Abstract(t: PersistentTerminal): Terminal
      reads t
    {
      Terminal((t.nodeId, t.terminalId), !t.Gone(), t.detachedSince)
    }

    ghost function View(): State
      reads this, all
    {
      State(seq(|all|, k requires 0 <= k < |all| reads this, all => Abstract(all[k])), place, due, multiset(retired))
    }

    ghost predicate Distinct()
      reads this`all
    {
      forall i, j :: 0 <= i < j < |all| ==> all[i] != all[j]
    }

    ghost predicate Placed()
      reads this`terminals, this`place, this`all
    {
      && place.Keys == terminals.Keys
      && (forall key :: key in terminals ==> place[key] < |all| && all[place[key]] == terminals[key])
    }

    ghost predicate AllValid()
      reads this`all, all
    {
      forall i :: 0 <= i < |all| ==> all[i].Valid()
    }

    ghost predicate Called()
      reads this`announced, this`retired, this`all
    {
      Answers(announced, retired, all)
    }

    ghost predicate Valid()
      reads this, all
    {
      Distinct() && Placed() && AllValid() && Called() && Good(View(), cap)
    }

    constructor (maxActivePerNode: int, detachedTtl: real)
      ensures Valid() && View() == EMPTY
      ensures cap == if maxActivePerNode < 1 then 1 else maxActivePerNode
      ensures this.detachedTtl == if detachedTtl < 1.0 then 1.0 else detachedTtl
    {
      cap := if maxActivePerNode < 1 then 1 else maxActivePerNode;
      this.detachedTtl := if detachedTtl < 1.0 then 1.0 else detachedTtl;
      terminals, announced := map[], [];
      all, place, due, retired := [], map[], multiset{}, [];
      new;
      EmptyHolds(cap);
      assert View() == EMPTY;
    }

    /** How many open terminals of the node are in the table. */
    method CountActive(node: string) returns (n: nat)
      requires Valid()
      ensures n == |Active(View(), node)|
    {
      hide Good, Answers, Tabled, Active, Counted, AllValid, Distinct;
      ghost var s := View();
      GoodIsTabled(s, cap);
      CountedAllOrNone(s, node);
      n := 0;
      var todo := terminals.Keys;
      while todo != {}
        invariant todo <= terminals.Keys
        invariant n == |Counted(s, node, todo)|
        decreases |todo|
      {
        var key :| key in todo;
        var t := terminals[key];
        CountOneMore(s, node, todo, key);
        assert s.terminals[place[key]] == Abstract(t);
        TabledKey(s, key);
        if t.nodeId == node && !t.Gone() {
          n := n + 1;
        }
        todo := todo - {key};
      }
    }

    /** The open terminal under the key, or a new one; None stands for ConnectionError. */
    method GetOrCreate(key: Key, reachable: bool, now: real) returns (t: Option<PersistentTerminal>)
      requires Valid()
      modifies this`terminals, this`all, this`place
      ensures Valid() && View() == HostRegistrySpec.GetOrCreate(old(View()), cap, key, reachable, now)
      ensures t.Some? ==> key in terminals && terminals[key] == t.value && !t.value.Gone()
      ensures t.None? ==> View() == old(View())
    {
      hide Good, Active, Created, AllValid, Distinct, Answers;
      ghost var s := View();
      StepKeepsGood(s, cap, detachedTtl, EGetOrCreate(key, reachable, now));
      if key in terminals && !terminals[key].Gone() {
        return Some(terminals[key]);
      }
      var active := CountActive(key.0);
      if active >= cap || !reachable {
        return None;
      }
      var created := new PersistentTerminal(key.0, key.1, now);
      Enter(key, created, now);
      return Some(created);
    }

    method Append(t: PersistentTerminal)
      requires t !in all && Distinct() && AllValid() && Called() && t.Valid()
      modifies this`all
      ensures Distinct() && AllValid() && Called() && all == old(all) + [t]
      ensures View() == old(View()).(terminals := old(View()).terminals + [Abstract(t)])
    {
      hide Answers;
      ghost var before := View().terminals;
      AnswersGrows(announced, retired, all, t);
      all := all + [t];
      assert View().terminals == before + [Abstract(t)];
    }

    method Enter(key: Key, t: PersistentTerminal, ghost now: real)
      requires t !in all && Distinct() && Placed() && AllValid() && Called() && t.Valid()
      requires Abstract(t) == Terminal(key, true, Some(now))
      modifies this`terminals, this`all, this`place
      ensures Distinct() && Placed() && AllValid() && Called()
      ensures terminals == old(terminals)[key := t]
      ensures View() == Created(old(View()), key, now)
    {
      hide Answers, AllValid, Distinct;
      Append(t);
      ghost var ts := View().terminals;
      terminals := terminals[key := t];
      place := place[key := |all| - 1];
      assert View().terminals == ts;
    }

    method CloseTerminal(t: PersistentTerminal, ghost k: nat)
      requires k < |all| && all[k] == t && Distinct() && AllValid()
      modifies t`closed, t`sessionClosed, t`subscriber, t`queues
      ensures AllValid()
      ensures View() == old(View()).(terminals := Closed(old(View()).terminals, k))
    {
      t.Close();
      assert View().terminals == Closed(old(View().terminals), k);
    }

    /** The call of `on_retired`, for terminal `k`. */
    method Fire(key: Key, ghost k: nat)
      requires Called() && k < |all| && (all[k].nodeId, all[k].terminalId) == key
      modifies this`announced, this`retired
      ensures Called() && announced == old(announced) + [key] && retired == old(retired) + [k]
    {
      announced := announced + [key];
      retired := retired + [k];
    }

    /** `self._terminals.pop(key)` */
    method Pop(key: Key)
      requires key in terminals && Placed()
      modifies this`terminals, this`place
      ensures Placed() && terminals == old(terminals) - {key} && place == old(place) - {key}
      ensures View() == State(old(View()).terminals, old(place) - {key}, due, multiset(retired))
    {
      ghost var before := View().terminals;
      terminals := terminals - {key};
      place := place - {key};
      assert View().terminals == before;
    }

    /** Pops and closes; the announcement follows in Announce. */
    method Delete(key: Key) returns (found: bool)
      requires Valid()
      modifies this`terminals, this`place, this`due, all
      ensures Valid() && View() == HostRegistrySpec.Delete(old(View()), key)
      ensures found == (key in old(terminals)) && key !in terminals
      ensures announced == old(announced)
    {
      hide Good, Answers, AllValid, Distinct;
      StepKeepsGood(View(), cap, detachedTtl, EDelete(key));
      if key !in terminals {
        return false;
      }
      var t := terminals[key];
      ghost var k := place[key];
      ghost var s := View();
      due := due + multiset{k};
      assert View().terminals == s.terminals;
      Pop(key);
      CloseTerminal(t, k);
      return true;
    }

    /** `_fire_retired`, for a terminal popped before. */
    method Announce(key: Key, ghost k: nat)
      requires Valid() && k in due && k < |all| && (all[k].nodeId, all[k].terminalId) == key
      modifies this`announced, this`due, this`retired
      ensures Valid() && View() == HostRegistrySpec.Announce(old(View()), k)
      ensures announced == old(announced) + [key]
    {
      hide Good, Answers, AllValid, Distinct, Placed;
      ghost var s := View();
      StepKeepsGood(s, cap, detachedTtl, EAnnounce(k));
      Fire(key, k);
      due := due - multiset{k};
      assert View().terminals == s.terminals;
    }

    /** `_remove_finished`: forgets the terminal only if the table still holds this object, and
        then calls the hook. */
    method RemoveFinished(t: PersistentTerminal, ghost k: nat)
      requires Valid() && k < |all| && all[k] == t && t.Gone()
      modifies this`terminals, this`place, this`retired, this`announced
      ensures Valid() && View() == HostRegistrySpec.RemoveFinished(old(View()), k)
      ensures var key := (t.nodeId, t.terminalId);
        announced == old(announced) + if key in old(terminals) && old(terminals)[key] == t then [key] else []
    {
      hide Good, Answers, AllValid;
      ghost var s := View();
      assert s.terminals[k] == Abstract(t);
      StepKeepsGood(s, cap, detachedTtl, ERemoveFinished(k));
      var key := (t.nodeId, t.terminalId);
      if key in terminals && terminals[key] == t {
        assert place[key] == k;
        Pop(key);
        Fire(key, k);
        assert View().terminals == s.terminals;
      }
    }

    // ---- what happens to one terminal ----

    /** A browser attaches to terminal `k`. */
    method Attach(t: PersistentTerminal, ghost k: nat) returns (q: Option<nat>)
      requires Valid() && k < |all| && all[k] == t
      modifies t`queues, t`subscriber, t`detachedSince
      ensures Valid() && View() == HostRegistrySpec.Attach(old(View()), k)
      ensures q.None? <==> old(t.Gone())
    {
      hide Good, Answers;
      ghost var s := View();
      StepKeepsGood(s, cap, detachedTtl, EAttach(k));
      assert s.terminals[k] == Abstract(t);
      q := t.Subscribe();
      assert View().terminals == HostRegistrySpec.Attach(s, k).terminals;
    }

    /** The browser with queue `q` leaves. */
    method Detach(t: PersistentTerminal, ghost k: nat, q: nat, now: real)
      requires Valid() && k < |all| && all[k] == t
      modifies t`subscriber, t`detachedSince
      ensures Valid()
      ensures View() ==
        if old(t.subscriber) == Some(q) then HostRegistrySpec.Detach(old(View()), k, now) else old(View())
    {
      hide Good, Answers;
      ghost var s := View();
      StepKeepsGood(s, cap, detachedTtl, EDetach(k, now));
      assert s.terminals[k] == Abstract(t);
      ghost var attached := t.subscriber == Some(q);
      t.Unsubscribe(q, now);
      assert View().terminals == if attached then HostRegistrySpec.Detach(s, k, now).terminals else s.terminals;
    }

    /** A browser takes an item from its queue. */
    method Get(t: PersistentTerminal, ghost k: nat, q: nat) returns (item: Option<seq<Byte>>)
      requires Valid() && k < |all| && all[k] == t && q < |t.queues| && t.queues[q] != []
      modifies t`queues
      ensures Valid() && View() == old(View()) && item == old(t.queues)[q][0]
    {
      hide Good, Answers;
      ghost var s := View();
      item := t.Get(q);
      assert View().terminals == s.terminals;
    }

    /** The session emits a chunk; a browser that does not keep up is detached. */
    method Emit(t: PersistentTerminal, ghost k: nat, chunk: seq<Byte>, now: real)
      requires Valid() && k < |all| && all[k] == t
      modifies t
      ensures Valid()
      ensures View() ==
        if old(t.subscriber).Some? && t.subscriber.None? then HostRegistrySpec.Detach(old(View()), k, now)
        else old(View())
    {
      hide Good, Answers;
      ghost var s := View();
      StepKeepsGood(s, cap, detachedTtl, EDetach(k, now));
      assert s.terminals[k] == Abstract(t);
      ghost var attached := t.subscriber.Some?;
      t.Emit(chunk, now);
      assert View().terminals ==
        if attached && t.subscriber.None? then HostRegistrySpec.Detach(s, k, now).terminals else s.terminals;
    }

    /** The node reports the shell's exit, and the pump of the terminal ends. */
    method Exit(t: PersistentTerminal, ghost k: nat)
      requires Valid() && k < |all| && all[k] == t
      modifies t`sessionClosed, t`closed, t`subscriber, t`queues
      ensures Valid() && View() == HostRegistrySpec.Exit(old(View()), k)
    {
      hide Good, Answers;
      ghost var s := View();
      StepKeepsGood(s, cap, detachedTtl, EExit(k));
      assert s.terminals[k] == Abstract(t);
      t.SessionEnds();
      t.PumpEnds();
      assert View().terminals == HostRegistrySpec.Exit(s, k).terminals;
    }

    // ---- one tick of the reaper ----

    method RestartClock(t: PersistentTerminal, ghost k: nat, now: real)
      requires k < |all| && all[k] == t && Distinct() && AllValid() && t.detachedSince.Some?
      modifies t`detachedSince
      ensures AllValid()
      ensures View() == old(View()).(
        terminals := old(View()).terminals[k := old(Abstract(t)).(detachedSince := Some(now))])
    {
      ghost var before := View().terminals;
      t.detachedSince := Some(now);
      assert View().terminals == before[k := before[k].(detachedSince := Some(now))];
    }

    /** Looks at one terminal: expired, busy past its TTL, or left alone. */
    method Look(key: Key, t: PersistentTerminal, busy: set<Key>, now: real, ghost s: State, ghost done: set<Key>)
      returns (expired: bool)
      requires Distinct() && Placed() && AllValid() && Tabled(s)
      requires key in terminals && terminals[key] == t && key !in done
      requires View() == s.(terminals := Swept(s, done, {}, busy, now, detachedTtl))
      modifies t`detachedSince
      ensures AllValid()
      ensures View() == s.(terminals := Swept(s, done + {key}, {}, busy, now, detachedTtl))
      ensures s.table[key] < |s.terminals| && expired == Expired(s.terminals[s.table[key]], busy, now, detachedTtl)
    {
      hide Swept, Tabled, AllValid, Distinct;
      SweepNotYet(s, done, key, busy, now, detachedTtl);
      SweepOne(s, done, key, busy, now, detachedTtl);
      assert Abstract(t) == View().terminals[place[key]];
      if t.Gone() {
        return true;
      }
      if t.detachedSince.None? || t.detachedSince.value > now - detachedTtl {
        return false;
      }
      if key in busy {
        RestartClock(t, place[key], now);
        return false;
      }
      return true;
    }

    /** One more key looked at. */
    method PickOne(key: Key, t: PersistentTerminal, expired: set<Key>, busy: set<Key>, now: real,
                   ghost s: State, ghost todo: set<Key>)
      returns (more: set<Key>)
      requires Distinct() && Placed() && AllValid() && Tabled(s) && s.table == place
      requires todo <= terminals.Keys && key in todo && terminals[key] == t
      requires View() == s.(terminals := Swept(s, terminals.Keys - todo, {}, busy, now, detachedTtl))
      requires expired == ExpiredSoFar(s, todo, busy, now, detachedTtl)
      modifies t`detachedSince
      ensures AllValid()
      ensures View() == s.(terminals := Swept(s, terminals.Keys - (todo - {key}), {}, busy, now, detachedTtl))
      ensures more == ExpiredSoFar(s, todo - {key}, busy, now, detachedTtl)
    {
      hide View, Placed, Swept, Tabled, AllValid, Distinct, ExpiredSoFar, ExpiredKeys, Expired;
      assert key in place by { PlacedKeys(); }
      ExpireOneMore(s, todo, key, busy, now, detachedTtl);
      KeysShift(terminals.Keys, todo, key);
      var gone := Look(key, t, busy, now, s, terminals.Keys - todo);
      more := if gone then expired + {key} else expired;
    }

    lemma PlacedKeys()
      requires Placed()
      ensures place.Keys == terminals.Keys
    {
    }

    /** Picks the expired terminals and restarts the clock of the overdue busy ones. */
    method PickExpired(busy: set<Key>, now: real) returns (expired: set<Key>)
      requires Valid()
      modifies all
      ensures AllValid()
      ensures View() == old(View()).(terminals := Swept(old(View()), place.Keys, {}, busy, now, detachedTtl))
      ensures expired == ExpiredKeys(old(View()), busy, now, detachedTtl)
    {
      hide Good, Answers, Swept, Tabled, AllValid, Distinct, ExpiredSoFar, ExpiredKeys, Expired;
      ghost var s := View();
      GoodIsTabled(s, cap);
      SweepNothing(s, busy, now, detachedTtl);
      ExpiredAllOrNone(s, busy, now, detachedTtl);
      assert s.table == place;
      hide View;
      expired := {};
      var todo := terminals.Keys;
      assert terminals.Keys - todo == {};
      while todo != {}
        invariant todo <= terminals.Keys
        invariant AllValid()
        invariant View() == s.(terminals := Swept(s, terminals.Keys - todo, {}, busy, now, detachedTtl))
        invariant expired == ExpiredSoFar(s, todo, busy, now, detachedTtl)
        decreases |todo|
      {
        var key :| key in todo;
        expired := PickOne(key, terminals[key], expired, busy, now, s, todo);
        todo := todo - {key};
      }
      assert terminals.Keys - todo == place.Keys;
    }

    /** Closes the terminals a tick has popped. */
    method CloseAll(victims: map<Key, PersistentTerminal>, busy: set<Key>, now: real, ghost s: State)
      requires Distinct() && AllValid() && Tabled(s)
      requires victims.Keys <= ExpiredKeys(s, busy, now, detachedTtl)
      requires forall key :: key in victims ==> s.table[key] < |all| && all[s.table[key]] == victims[key]
      requires View().terminals == Swept(s, s.table.Keys, {}, busy, now, detachedTtl)
      modifies set key | key in victims :: victims[key]
      ensures AllValid()
      ensures View() == old(View()).(terminals := Swept(s, s.table.Keys, victims.Keys, busy, now, detachedTtl))
    {
      hide Swept, Tabled, AllValid, Distinct;
      var todo := victims.Keys;
      assert victims.Keys - todo == {};
      while todo != {}
        invariant todo <= victims.Keys
        invariant AllValid()
        invariant View() == old(View()).(
          terminals := Swept(s, s.table.Keys, victims.Keys - todo, busy, now, detachedTtl))
        decreases |todo|
      {
        var key :| key in todo;
        ShutOne(s, victims.Keys - todo, key, busy, now, detachedTtl);
        CloseTerminal(victims[key], s.table[key]);
        KeysShift(victims.Keys, todo, key);
        todo := todo - {key};
      }
      assert victims.Keys - todo == victims.Keys;
    }

    /** Pops the expired terminals; their retirements are owed. */
    method PopAll(expired: set<Key>) returns (victims: map<Key, PersistentTerminal>)
      requires Placed() && expired <= terminals.Keys
      modifies this`terminals, this`place, this`due
      ensures Placed() && terminals == old(terminals) - expired
      ensures victims == map key | key in expired :: old(terminals)[key]
      ensures View() == State(old(View()).terminals, old(place) - expired,
        old(due) + Owed(old(place), expired), multiset(retired))
    {
      ghost var before := View().terminals;
      victims := map key | key in expired :: terminals[key];
      due := due + Owed(place, expired);
      terminals := terminals - expired;
      place := place - expired;
      assert View().terminals == before;
    }

    /** The part of the tick under the lock: pick, then pop. */
    method TakeExpired(busy: set<Key>, now: real) returns (victims: map<Key, PersistentTerminal>)
      requires Valid()
      modifies this`terminals, this`place, this`due, all
      ensures Placed() && AllValid()
      ensures var s := old(View());
        var gone := ExpiredKeys(s, busy, now, detachedTtl);
        && View() == State(Swept(s, s.table.Keys, {}, busy, now, detachedTtl), s.table - gone,
             s.due + Owed(s.table, gone), s.retired)
        && victims.Keys == gone <= s.table.Keys
        && (forall key :: key in victims ==> s.table[key] < |all| && all[s.table[key]] == victims[key])
    {
      hide Good, Answers, Swept, Tabled, ExpiredKeys, Expired, Owed, AllValid, Distinct;
      ExpiredAllOrNone(View(), busy, now, detachedTtl);
      var expired := PickExpired(busy, now);
      victims := PopAll(expired);
      assert victims.Keys == expired;
    }

    /** One tick; the announcements of the popped terminals follow in Announce. */
    method Reap(busy: set<Key>, now: real)
      requires Valid()
      modifies this`terminals, this`place, this`due, all
      ensures Valid() && View() == HostRegistrySpec.Reap(old(View()), busy, now, detachedTtl)
      ensures announced == old(announced)
    {
      hide Good, Answers, Swept, Tabled, ExpiredKeys, Expired, AllValid, Distinct, Owed, HostRegistrySpec.Reap;
      ghost var s := View();
      ReapKeepsGood(s, cap, busy, now, detachedTtl);
      ReapIs(s, busy, now, detachedTtl);
      GoodIsTabled(s, cap);
      var victims := TakeExpired(busy, now);
      CloseAll(victims, busy, now, s);
    }
  }
}
