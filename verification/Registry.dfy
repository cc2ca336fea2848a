/** `Registry` itself (registry.py): a dictionary of live connections, changed in place. */
module Registry {
  import opened RegistrySpec
  import C = Connection

  class Registry {
    /** The dictionary: its keys in order, and its values. */
    var order: seq<string>
    var conns: map<string, C.Connection>
    /** The calls the `on_disconnect` hook received. */
    var fired: seq<string>
    /** Every connection ever registered, the place of the live ones in that list, and the
        registrations of absent nodes. */
    ghost var all: seq<C.Connection>
    ghost var place: map<string, nat>
    ghost var arrived: seq<string>

    ghost function LinkOf(c: C.Connection): Link
      reads c
    {
      Link(c.nodeId, c.connectedAt, c.lastHeartbeat, c.closed)
    }

    ghost function View(): State
      reads this, all
    {
      State(order, place,
            seq(|all|, k requires 0 <= k < |all| reads this, all => LinkOf(all[k])), arrived, fired)
    }

    /** The dictionary holds the objects it is said to hold, and the theorem of RegistrySpec
        is true of them. */
    ghost predicate Valid()
      reads this, all
    {
      Distinct() && Placed() && Sound(View()) && Balanced(View())
    }

    ghost predicate Distinct()
      reads this
    {
      forall i, j :: 0 <= i < j < |all| ==> all[i] != all[j]
    }

    ghost predicate Placed()
      reads this
    {
      && place.Keys == conns.Keys
      && (forall node :: node in conns ==> place[node] < |all| && all[place[node]] == conns[node])
    }

    constructor ()
      ensures Valid() && View() == EMPTY
    {
      order, conns, fired := [], map[], [];
      all, place, arrived := [], map[], [];
      new;
      EmptyIsSound();
      assert View() == EMPTY;
    }

    method Close(c: C.Connection, ghost k: nat)
      requires k < |all| && all[k] == c && Distinct()
      modifies c
      ensures c.closed
      ensures View() == old(View()).(links := Closed(old(View()).links, k))
    {
      hide Sound, Balanced;
      c.Close();
      assert View().links == Closed(old(View()).links, k);
    }

    /** `del self._conns[node_id]`, then the hook. */
    method Forget(node: string)
      requires Distinct() && Placed()
      modifies this`conns, this`place, this`order, this`fired
      ensures Distinct() && Placed() && conns == old(conns) - {node}
      ensures View() ==
        State(Without(old(order), node), old(place) - {node}, old(View()).links, arrived, old(fired) + [node])
    {
      ghost var links := View().links;
      conns := conns - {node};
      place := place - {node};
      order := Without(order, node);
      fired := fired + [node];
      assert View().links == links;
    }

    /** Closes and forgets the node's connection, and fires the hook. */
    method Remove(node: string)
      requires Valid() && node in conns
      modifies this, conns[node]
      ensures Valid() && all == old(all) && View() == Removed(old(View()), node)
      ensures conns == old(conns) - {node} && old(conns[node]).closed
    {
      hide Sound, Balanced;
      RemovedKeeps(View(), node);
      ghost var before := View();
      var c := conns[node];
      Close(c, place[node]);
      ghost var links := View().links;
      Forget(node);
      assert links == Closed(before.links, before.live[node]);
      assert View() == Removed(before, node);
    }

    /** `self._conns[node_id] = conn` */
    method Enter(node: string, c: C.Connection)
      requires c !in all && Distinct() && Placed()
      modifies this`conns, this`place, this`all
      ensures Distinct() && Placed()
      ensures conns == old(conns)[node := c] && place == old(place)[node := |old(all)|] && all == old(all) + [c]
      ensures View() == old(View()).(live := old(place)[node := |old(all)|], links := old(View()).links + [LinkOf(c)])
    {
      ghost var links := View().links;
      conns := conns[node := c];
      place := place[node := |all|];
      all := all + [c];
      assert View().links == links + [LinkOf(c)];
    }

    method Register(node: string, now: real) returns (c: C.Connection)
      requires Valid()
      modifies this, all
      ensures Valid() && View() == RegistrySpec.Register(old(View()), node, now)
      ensures fresh(c) && all == old(all) + [c] && node in conns && conns[node] == c
    {
      hide Sound, Balanced;
      ghost var before := View();
      RegisterKeeps(before, node, now);
      c := new C.Connection(node, now);
      if node in conns {
        Close(conns[node], place[node]);
      } else {
        order := order + [node];
        arrived := arrived + [node];
      }
      ghost var links := View().links;
      assert links == if node in before.live then Closed(before.links, before.live[node]) else before.links;
      Enter(node, c);
      assert View() == RegistrySpec.Register(before, node, now);
    }

    /** Forgets the node only if this is still its connection, and closes the connection in any
        case. The registry stays in order exactly when the id is the connection's own. */
    method Unregister(node: string, c: C.Connection?, ghost k: nat)
      requires Valid()
      requires c != null ==> if c in all then k < |all| && all[k] == c else k == |all|
      modifies this, all, if c == null then {} else {c}
      ensures all == old(all)
      ensures View() == if c == null then old(View()) else RegistrySpec.Unregister(old(View()), node, k)
      ensures c != null ==> c.closed
      ensures Valid() <==> c == null || Owns(old(View()), node, k)
    {
      hide Sound, Balanced;
      if c == null {
        return;
      }
      ghost var before := View();
      UnregisterKeepsIff(before, node, k);
      if node in conns && conns[node] == c {
        Remove(node);
      } else {
        c.Close();
        assert View().links == Closed(before.links, k);
      }
    }

    method Disconnect(node: string)
      requires Valid()
      modifies this, all
      ensures Valid() && all == old(all) && View() == RegistrySpec.Disconnect(old(View()), node)
    {
      if node in conns {
        Remove(node);
      }
    }

    /** A heartbeat arrives on connection `k`. */
    method NoteHeartbeat(c: C.Connection, ghost k: nat, now: real)
      requires Valid() && k < |all| && all[k] == c
      modifies c`lastHeartbeat
      ensures Valid() && View() == RegistrySpec.NoteHeartbeat(old(View()), k, now)
    {
      hide Sound, Balanced;
      ghost var before := View();
      BeatKeeps(before, k, now);
      c.NoteHeartbeat(now);
      assert View().links == RegistrySpec.NoteHeartbeat(before, k, now).links;
    }

    /** Looks at one node; a removed one is added to the list. */
    method ReapNode(node: string, now: real, timeout: real) returns (gone: seq<string>)
      requires Valid()
      modifies this, all
      ensures Valid() && all == old(all) && View() == ReapOne(old(View()), node, now, timeout)
      ensures fired == old(fired) + gone
    {
      hide Sound, Balanced, Removed;
      gone := [];
      if node in conns {
        var c := conns[node];
        assert View().links[place[node]] == LinkOf(c);
        var since := if c.lastHeartbeat.Some? then c.lastHeartbeat.value else c.connectedAt;
        if now - since > timeout {
          gone := [node];
          RemovedFires(View(), node);
          Remove(node);
        }
      }
    }

    lemma RemovedFires(s: State, node: string)
      requires node in s.live
      ensures Removed(s, node).fired == s.fired + [node]
    {
    }

    /** Drops every connection that has been silent for longer than `timeout`. */
    method ReapStale(now: real, timeout: real) returns (stale: seq<string>)
      requires Valid()
      modifies this, all
      ensures Valid() && all == old(all) && View() == Reap(old(View()), now, timeout)
      ensures fired == old(fired) + stale
    {
      hide Sound, Balanced, Distinct, Placed, ReapOne, Removed;
      stale := [];
      var nodes := order;
      var i := 0;
      assert nodes[..0] == [];
      while i < |nodes|
        invariant 0 <= i <= |nodes|
        invariant Valid() && all == old(all)
        invariant View() == ReapEach(old(View()), nodes[..i], now, timeout)
        invariant fired == old(fired) + stale
      {
        assert nodes[..i + 1][..i] == nodes[..i];
        var gone := ReapNode(nodes[i], now, timeout);
        stale := stale + gone;
        i := i + 1;
      }
      assert nodes[..i] == nodes;
    }
  }
}
