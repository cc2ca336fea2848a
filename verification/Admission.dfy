/** Authentication and the live registry together (connect_stream.py, service.py): a node is
    let in by a one-time code, its claim on the code is released when its live connection is
    definitively gone. Claim and registration are one step. */
module Admission {
  import opened Bytes
  import opened Text
  import Reg = RegistrySpec
  import R = Replay

  /** What a connection was opened with: the secret, the code as validated, and when. */
  datatype Grant = Grant(secret: seq<Byte>, code: string, at: real)

  datatype State = State(reg: Reg.State, seen: R.Seen, grants: map<nat, Grant>)

  const START := State(Reg.EMPTY, map[], map[])

  datatype Event =
    | Connect(secret: seq<Byte>, code: string, at: real, node: string)
    | Live(event: Reg.Event)

  /** The hook, once for every node in the list. */
  function ReleaseAll(seen: R.Seen, nodes: seq<string>): R.Seen {
    if nodes == [] then seen else R.Released(ReleaseAll(seen, nodes[..|nodes| - 1]), nodes[|nodes| - 1])
  }

  /** The `on_disconnect` calls a registry step made. */
  function NewlyFired(before: Reg.State, after: Reg.State): seq<string> {
    if before.fired <= after.fired then after.fired[|before.fired|..] else []
  }

  function After(s: State, mac: R.Mac, e: Event): State {
    match e
    case Connect(secret, code, at, node) =>
      var seen := R.AfterAttempt(s.seen, mac, secret, code, at, node);
      if R.Accepts(s.seen, mac, secret, code, at, node) then
        State(Reg.Register(s.reg, node, at), seen, s.grants[|s.reg.links| := Grant(secret, Strip(code), at)])
      else s.(seen := seen)
    case Live(event) =>
      if event.ERegister? then s
      else
        var reg := Reg.After(s.reg, event);
        State(reg, ReleaseAll(s.seen, NewlyFired(s.reg, reg)), s.grants)
  }

  function Run(mac: R.Mac, es: seq<Event>): State {
    if es == [] then START else After(Run(mac, es[..|es| - 1]), mac, es[|es| - 1])
  }

  // ---- times ----

  /** No attempt since event `i` carries a time more than `slack` ahead of `at`. */
  ghost predicate NotOvertaken(es: seq<Event>, i: nat, at: real, slack: real) {
    forall k :: i <= k < |es| && es[k].Connect? ==> es[k].at <= at + slack
  }

  /** The latest time of an attempt in `es[i..n]`. */
  function Latest(es: seq<Event>, i: nat, n: nat): real
    requires i < n <= |es| && es[i].Connect?
  {
    if n == i + 1 then es[i].at
    else if es[n - 1].Connect? then R.Later(Latest(es, i, n - 1), es[n - 1].at)
    else Latest(es, i, n - 1)
  }

  lemma {:induction false} LatestBound(es: seq<Event>, i: nat, n: nat, bound: real)
    requires i < n <= |es| && es[i].Connect?
    requires forall k :: i <= k < n && es[k].Connect? ==> es[k].at <= bound
    ensures Latest(es, i, n) <= bound
  {
    if n > i + 1 { LatestBound(es, i, n - 1, bound); }
  }

  // ---- one attempt ----

  lemma MatchedCodeHasNoBar(mac: R.Mac, secret: seq<Byte>, code: string, at: real)
    requires R.Matches(mac, secret, code, at)
    ensures '|' !in Strip(code)
  {
    hide Strip;
    R.MatchStepIff(mac, secret, Strip(code), at);
    var step := R.MatchStep(mac, secret, Strip(code), at).value;
    R.DecimalIsDecimal(R.Truncate(mac(secret, step)) % 1_000_000, R.DIGITS);
  }

  lemma AttemptKeepsHeld(seen: R.Seen, mac: R.Mac, secret: seq<Byte>, code: string, at: real, node: string,
                         key: string, since: real, clock: real)
    requires R.HeldOrOld(seen, key, since, clock)
    ensures R.HeldOrOld(R.AfterAttempt(seen, mac, secret, code, at, node), key, since, R.Later(clock, at))
  {
    hide Strip, R.Matches;
    if R.Matches(mac, secret, code, at) {
      R.ClaimKeepsHeld(seen, key, since, clock, node, Strip(code), at);
    }
  }

  lemma RegisterOnlyAdds(s: Reg.State, node: string, now: real)
    ensures var t := Reg.Register(s, node, now);
      && |t.links| == |s.links| + 1 && t.links[|s.links|].node == node
      && forall k :: 0 <= k < |s.links| ==>
        t.links[k].node == s.links[k].node && (s.links[k].closed ==> t.links[k].closed)
  {
  }

  lemma NewClaimIsHeld(seen: R.Seen, mac: R.Mac, e: Event, clock: real)
    requires e.Connect? && R.Accepts(seen, mac, e.secret, e.code, e.at, e.node)
    ensures var after := R.AfterAttempt(seen, mac, e.secret, e.code, e.at, e.node);
      '|' !in Strip(e.code) && R.HeldOrOld(after, R.Key(e.node, Strip(e.code)), e.at, clock)
  {
    hide Strip, R.MatchStep;
    MatchedCodeHasNoBar(mac, e.secret, e.code, e.at);
  }

  // ---- registry steps and the hook ----

  /** The fields a registry step other than registration cannot disturb. */
  ghost predicate OnlyRemoves(s: Reg.State, t: Reg.State) {
    && s.fired <= t.fired
    && (forall node :: node in t.fired[|s.fired|..] <==> node in s.live && node !in t.live)
    && (forall node :: node in t.live ==> node in s.live)
    && |t.links| == |s.links|
    && (forall k :: 0 <= k < |s.links| ==>
          t.links[k].node == s.links[k].node && (s.links[k].closed ==> t.links[k].closed))
  }

  lemma RemovedOnlyRemoves(s: Reg.State, t: Reg.State, node: string)
    requires OnlyRemoves(s, t) && node in t.live
    ensures OnlyRemoves(s, Reg.Removed(t, node))
  {
    var u := Reg.Removed(t, node);
    assert u.fired[|s.fired|..] == t.fired[|s.fired|..] + [node];
  }

  lemma {:induction false} ReapOnlyRemoves(s: Reg.State, nodes: seq<string>, now: real, timeout: real)
    ensures OnlyRemoves(s, Reg.ReapEach(s, nodes, now, timeout))
    decreases |nodes|
  {
    hide Reg.Removed;
    if nodes != [] {
      var init, node := nodes[..|nodes| - 1], nodes[|nodes| - 1];
      ReapOnlyRemoves(s, init, now, timeout);
      var before := Reg.ReapEach(s, init, now, timeout);
      if node in before.live { RemovedOnlyRemoves(s, before, node); }
    }
  }

  lemma StepOnlyRemoves(s: Reg.State, e: Reg.Event)
    requires !e.ERegister?
    ensures OnlyRemoves(s, Reg.After(s, e))
  {
    hide Reg.Removed, Reg.ReapEach;
    assert OnlyRemoves(s, s);
    match e
    case EUnregister(k) =>
      if k < |s.links| && s.links[k].node in s.live && s.live[s.links[k].node] == k {
        RemovedOnlyRemoves(s, s, s.links[k].node);
      }
    case EDisconnect(node) => if node in s.live { RemovedOnlyRemoves(s, s, node); }
    case EBeat(k, now) =>
    case EReap(now, timeout) => ReapOnlyRemoves(s, s.order, now, timeout);
  }

  lemma {:induction false} ReleaseAllSpares(seen: R.Seen, nodes: seq<string>, key: string)
    requires forall node :: node in nodes ==> !R.Hits(node, key)
    ensures key in ReleaseAll(seen, nodes) <==> key in seen
    ensures key in seen ==> ReleaseAll(seen, nodes)[key] == seen[key]
  {
    if nodes != [] { ReleaseAllSpares(seen, nodes[..|nodes| - 1], key); }
  }

  lemma {:induction false} RunIsSound(mac: R.Mac, es: seq<Event>)
    ensures Reg.Sound(Run(mac, es).reg) && Reg.Balanced(Run(mac, es).reg)
  {
    hide Reg.Sound, Reg.Balanced, Reg.Register, Reg.After, R.Accepts, R.AfterAttempt;
    if es == [] {
      Reg.EmptyIsSound();
    } else {
      var s, e := Run(mac, es[..|es| - 1]), es[|es| - 1];
      RunIsSound(mac, es[..|es| - 1]);
      match e
      case Connect(secret, code, at, node) => Reg.RegisterKeeps(s.reg, node, at);
      case Live(event) => Reg.StepKeeps(s.reg, event);
    }
  }

  // ---- how connections come to be ----

  /** An accepted attempt opens the next connection, under the credentials it presented, and
      the record stays with that connection for ever. */
  lemma {:induction false} GrantIsRecorded(mac: R.Mac, es: seq<Event>, i: nat, n: nat)
    requires i < n <= |es| && es[i].Connect?
    requires var e := es[i];
      R.Accepts(Run(mac, es[..i]).seen, mac, e.secret, e.code, e.at, e.node)
    ensures var k, e, s := |Run(mac, es[..i]).reg.links|, es[i], Run(mac, es[..n]);
      && k < |s.reg.links| && s.reg.links[k].node == e.node
      && k in s.grants && s.grants[k] == Grant(e.secret, Strip(e.code), e.at)
    decreases n
  {
    hide Strip, R.Matches, R.Claimed, Reg.After;
    assert es[..n][..n - 1] == es[..n - 1];
    var k := |Run(mac, es[..i]).reg.links|;
    if i < n - 1 {
      GrantIsRecorded(mac, es, i, n - 1);
      var s := Run(mac, es[..n - 1]);
      match es[n - 1]
      case Connect(secret, code, at, node) =>
      case Live(event) =>
        if !event.ERegister? { StepOnlyRemoves(s.reg, event); }
    }
  }

  /** The event that opened connection `k`. */
  function Opener(mac: R.Mac, es: seq<Event>, k: nat): (i: nat)
    ensures i <= |es|
  {
    if es == [] then 0
    else
      var init := es[..|es| - 1];
      if k < |Run(mac, init).reg.links| then Opener(mac, init, k) else |init|
  }

  /** Every connection was opened by an accepted attempt. */
  lemma {:induction false} EveryConnectionWasAdmitted(mac: R.Mac, es: seq<Event>, k: nat)
    requires k < |Run(mac, es).reg.links|
    ensures var i := Opener(mac, es, k);
      && i < |es| && es[i].Connect? && |Run(mac, es[..i]).reg.links| == k
      && R.Accepts(Run(mac, es[..i]).seen, mac, es[i].secret, es[i].code, es[i].at, es[i].node)
  {
    hide R.Accepts, R.AfterAttempt, Reg.After, Reg.Register, Strip;
    var init, e := es[..|es| - 1], es[|es| - 1];
    if k < |Run(mac, init).reg.links| {
      EveryConnectionWasAdmitted(mac, init, k);
      assert init[..Opener(mac, es, k)] == es[..Opener(mac, es, k)];
    } else {
      OneMoreLink(Run(mac, init), mac, e);
    }
  }

  lemma OneMoreLink(s: State, mac: R.Mac, e: Event)
    ensures var opens := e.Connect? && R.Accepts(s.seen, mac, e.secret, e.code, e.at, e.node);
      |After(s, mac, e).reg.links| == |s.reg.links| + if opens then 1 else 0
  {
    hide R.Accepts, R.AfterAttempt, Reg.After, Reg.Register, Strip;
    match e
    case Connect(secret, code, at, node) => RegisterOnlyAdds(s.reg, node, at);
    case Live(event) => if !event.ERegister? { StepOnlyRemoves(s.reg, event); }
  }

  // ---- what a connection's claim is worth ----

  lemma ClosedStaysClosed(s: State, mac: R.Mac, e: Event, k: nat)
    requires k < |s.reg.links|
    ensures var t := After(s, mac, e);
      && k < |t.reg.links| && t.reg.links[k].node == s.reg.links[k].node
      && (s.reg.links[k].closed ==> t.reg.links[k].closed)
  {
    hide R.Accepts, R.AfterAttempt, Reg.After, Reg.Register, Strip;
    match e
    case Connect(secret, code, at, node) => RegisterOnlyAdds(s.reg, node, at);
    case Live(event) => if !event.ERegister? { StepOnlyRemoves(s.reg, event); }
  }

  /** One event leaves the claim of a connection that is open after it. */
  lemma StepKeepsClaim(s: State, mac: R.Mac, e: Event, k: nat, code: string, since: real, clock: real)
    requires Reg.Sound(After(s, mac, e).reg) && k < |s.reg.links|
    requires k < |After(s, mac, e).reg.links| && !After(s, mac, e).reg.links[k].closed
    requires '|' !in s.reg.links[k].node && '|' !in code
    requires R.HeldOrOld(s.seen, R.Key(s.reg.links[k].node, code), since, clock)
    ensures var key := R.Key(s.reg.links[k].node, code);
      R.HeldOrOld(After(s, mac, e).seen, key, since, if e.Connect? then R.Later(clock, e.at) else clock)
  {
    hide Strip, R.Accepts, R.AfterAttempt, Reg.After, Reg.Register;
    var owner := s.reg.links[k].node;
    match e
    case Connect(secret, attempt, at, node) =>
      AttemptKeepsHeld(s.seen, mac, secret, attempt, at, node, R.Key(owner, code), since, clock);
    case Live(event) =>
      if !event.ERegister? {
        ClosedStaysClosed(s, mac, e, k);
        StepOnlyRemoves(s.reg, event);
        var gone := NewlyFired(s.reg, Reg.After(s.reg, event));
        assert owner !in gone;
        forall node | node in gone ensures !R.Hits(node, R.Key(owner, code)) {
          R.ReleaseIsExact(node, owner, code);
        }
        ReleaseAllSpares(s.seen, gone, R.Key(owner, code));
      }
  }

  /** While the connection opened by attempt `i` lives, its claim is held with its time, or
      some attempt since then came more than a TTL after it. */
  lemma {:induction false} ClaimStays(mac: R.Mac, es: seq<Event>, i: nat, n: nat)
    requires i < n <= |es| && es[i].Connect? && '|' !in es[i].node
    requires R.Accepts(Run(mac, es[..i]).seen, mac, es[i].secret, es[i].code, es[i].at, es[i].node)
    requires var k := |Run(mac, es[..i]).reg.links|;
      k < |Run(mac, es[..n]).reg.links| ==> !Run(mac, es[..n]).reg.links[k].closed
    ensures R.HeldOrOld(Run(mac, es[..n]).seen, R.Key(es[i].node, Strip(es[i].code)), es[i].at, Latest(es, i, n))
    decreases n
  {
    hide Strip, R.Accepts, R.AfterAttempt, R.HeldOrOld, Reg.Sound, Reg.Balanced, After;
    var k, code := |Run(mac, es[..i]).reg.links|, Strip(es[i].code);
    assert es[..n][..n - 1] == es[..n - 1];
    NewClaimIsHeld(Run(mac, es[..i]).seen, mac, es[i], es[i].at);
    if n - 1 == i {
      AttemptClaims(Run(mac, es[..i]), mac, es[i]);
    } else {
      GrantIsRecorded(mac, es, i, n - 1);
      var s, e := Run(mac, es[..n - 1]), es[n - 1];
      ClosedStaysClosed(s, mac, e, k);
      ClaimStays(mac, es, i, n - 1);
      RunIsSound(mac, es[..n]);
      StepKeepsClaim(s, mac, e, k, code, es[i].at, Latest(es, i, n - 1));
    }
  }

  lemma AttemptClaims(s: State, mac: R.Mac, e: Event)
    requires e.Connect?
    ensures After(s, mac, e).seen == R.AfterAttempt(s.seen, mac, e.secret, e.code, e.at, e.node)
  {
  }

  // ---- the theorems ----

  /** The claim of every live connection, in every reachable state. */
  lemma EveryRunGuards(mac: R.Mac, es: seq<Event>, k: nat)
    requires k < |Run(mac, es).reg.links| && !Run(mac, es).reg.links[k].closed
    requires '|' !in Run(mac, es).reg.links[k].node
    ensures var s, i := Run(mac, es), Opener(mac, es, k);
      && i < |es| && es[i].Connect? && k in s.grants
      && es[i].node == s.reg.links[k].node
      && s.grants[k] == Grant(es[i].secret, Strip(es[i].code), es[i].at)
      && R.HeldOrOld(s.seen, R.Key(s.reg.links[k].node, s.grants[k].code), s.grants[k].at, Latest(es, i, |es|))
  {
    hide Run, Strip, R.Accepts, R.HeldOrOld, Opener;
    EveryConnectionWasAdmitted(mac, es, k);
    var i := Opener(mac, es, k);
    assert es[..|es|] == es;
    GrantIsRecorded(mac, es, i, |es|);
    ClaimStays(mac, es, i, |es|);
  }

  /** While a connection lives, the time step that opened it opens nothing more for its node:
      in every reachable state, the code of a step that was acceptable when the connection was
      admitted and still is, is refused - by every attempt that is at most 30 seconds behind
      the ones since the connection was admitted. */
  lemma {:induction false} LiveCodeIsRefused(mac: R.Mac, es: seq<Event>, k: nat, step: nat, code: string,
                                             at: real, slack: real)
    requires k < |Run(mac, es).reg.links| && !Run(mac, es).reg.links[k].closed
    requires '|' !in Run(mac, es).reg.links[k].node && k in Run(mac, es).grants
    requires NotOvertaken(es, Opener(mac, es, k), at, slack)
    requires var grant := Run(mac, es).grants[k];
      && R.Tolerable(slack, grant.at)
      && R.InWindow(step, grant.at) && R.InWindow(step, at)
      && R.CodeAt(mac, grant.secret, step) == grant.code == Strip(code)
    ensures var s := Run(mac, es);
      !R.Accepts(s.seen, mac, s.grants[k].secret, code, at, s.reg.links[k].node)
  {
    hide Run, Strip, R.Matches, R.CodeAt, Opener;
    EveryRunGuards(mac, es, k);
    LatestBound(es, Opener(mac, es, k), |es|, at + slack);
    var s := Run(mac, es);
    HeldIsRefused(s.seen, s.reg.links[k].node, s.grants[k].code, s.grants[k].at, Latest(es, Opener(mac, es, k), |es|),
      step, at, slack);
  }

  /** A claim that is held, or was overtaken by no more than the tolerance allows, refuses its
      code at every moment at which one step is acceptable both then and now. */
  lemma HeldIsRefused(seen: R.Seen, node: string, code: string, since: real, clock: real,
                      step: nat, at: real, slack: real)
    requires R.HeldOrOld(seen, R.Key(node, code), since, clock) && clock <= at + slack && R.Tolerable(slack, since)
    requires R.InWindow(step, since) && R.InWindow(step, at)
    ensures !R.Fresh(seen, node, code, at)
  {
    hide R.InWindow;
    if since <= at {
      R.WindowWidth(step, since, at);
    } else {
      R.WindowWidth(step, at, since);
    }
    assert R.Key(node, code) in seen && seen[R.Key(node, code)] == since;
  }

  /** No code is accepted twice for one time step while the connection it opened is live, as
      long as the second attempt is at most 30 seconds behind those since the first. */
  lemma {:induction false} NoReuseWhileLive(mac: R.Mac, es: seq<Event>, i: nat, j: nat, step: nat, slack: real)
    requires i < j < |es| && es[i].Connect? && es[j].Connect? && '|' !in es[i].node
    requires R.Tolerable(slack, es[i].at) && NotOvertaken(es[..j], i, es[j].at, slack)
    requires es[i].node == es[j].node && es[i].secret == es[j].secret
    requires R.Accepts(Run(mac, es[..i]).seen, mac, es[i].secret, es[i].code, es[i].at, es[i].node)
    requires R.InWindow(step, es[i].at) && R.CodeAt(mac, es[i].secret, step) == Strip(es[i].code)
    requires R.InWindow(step, es[j].at) && R.CodeAt(mac, es[j].secret, step) == Strip(es[j].code)
    requires var k := |Run(mac, es[..i]).reg.links|;
      k < |Run(mac, es[..j]).reg.links| ==> !Run(mac, es[..j]).reg.links[k].closed
    ensures !R.Accepts(Run(mac, es[..j]).seen, mac, es[j].secret, es[j].code, es[j].at, es[j].node)
  {
    hide Run, Strip, R.Matches, R.CodeAt, R.InWindow, R.HeldOrOld, R.Fresh;
    ClaimStays(mac, es, i, j);
    assert forall k :: i <= k < j ==> es[..j][k] == es[k];
    LatestBound(es, i, j, es[j].at + slack);
    HeldIsRefused(Run(mac, es[..j]).seen, es[i].node, Strip(es[i].code), es[i].at, Latest(es, i, j),
      step, es[j].at, slack);
  }

  function AsConnect(e: R.Event): Event
    requires e.Attempt?
  {
    Connect(e.secret, e.code, e.at, e.node)
  }

  /** The tolerance is exact: for every lag beyond 30 seconds there is a run in which a stalled
      stream is let in by the step that opened the connection its node still has. */
  lemma {:induction false} LaterIsReusedWhileLive(mac: R.Mac, secret: seq<Byte>, slack: real)
    requires slack > 30.0
    ensures var r := R.Stalled(mac, secret, slack);
      var es, late := [AsConnect(r[0]), AsConnect(r[1])], r[2];
      var s := Run(mac, es);
      && NotOvertaken(es, 0, late.at, slack)
      && |s.reg.links| == 2 && !s.reg.links[0].closed && s.reg.links[0].node == late.node
      && 0 in s.grants && s.grants[0] == Grant(secret, Strip(late.code), 0.0)
      && R.InWindow(2, 0.0) && R.InWindow(2, late.at) && R.CodeAt(mac, secret, 2) == Strip(late.code)
      && R.Accepts(s.seen, mac, secret, late.code, late.at, late.node)
  {
    hide Strip, R.Accepts, R.AfterAttempt, R.CodeAt, R.Gap;
    var r := R.Stalled(mac, secret, slack);
    R.LaterIsReused(mac, secret, slack);
    R.SecondSucceeds(mac, secret, slack);
    var es := [AsConnect(r[0]), AsConnect(r[1])];
    assert es[..1] == [es[0]] && es[..1][..0] == [] && r[..0] == [] && r[..1][..0] == [] && r[..2][..1] == r[..1];
    var first := Reg.Register(Reg.EMPTY, "a", 0.0);
    assert Run(mac, es[..1]) == State(first, R.Run(mac, r[..1]), map[0 := Grant(secret, Strip(r[0].code), 0.0)]);
    assert es[..2] == es;
    assert Run(mac, es).seen == R.Run(mac, r[..2]);
    assert Run(mac, es).reg == Reg.Register(first, "b", r[1].at);
  }

  /** The teardown of a superseded stream frees no claim and forgets no node. */
  lemma StaleTeardownFreesNothing(s: State, mac: R.Mac, k: nat)
    requires k < |s.reg.links|
    requires s.reg.links[k].node in s.reg.live ==> s.reg.live[s.reg.links[k].node] != k
    ensures var t := After(s, mac, Live(Reg.EUnregister(k)));
      t.seen == s.seen && t.reg.live == s.reg.live && t.reg.fired == s.reg.fired
  {
    assert NewlyFired(s.reg, Reg.Unregister(s.reg, s.reg.links[k].node, k)) == [];
  }

  lemma {:induction false} ReleaseAllIff(seen: R.Seen, nodes: seq<string>, owner: string, code: string)
    requires '|' !in owner && '|' !in code
    ensures var key, left := R.Key(owner, code), ReleaseAll(seen, nodes);
      && (key in left <==> key in seen && owner !in nodes)
      && (key in left ==> left[key] == seen[key])
  {
    hide R.Hits;
    if nodes != [] {
      var init, node := nodes[..|nodes| - 1], nodes[|nodes| - 1];
      ReleaseAllIff(seen, init, owner, code);
      R.ReleaseIsExact(node, owner, code);
      assert nodes == init + [node];
    }
  }

  /** Whatever removes them - the teardown of the live stream, a forced disconnect, the reaper -
      a registry step frees exactly the claims of the nodes that were connected before it and
      are not after it; the other claims keep their times. */
  lemma RemovalFreesExactly(s: State, mac: R.Mac, e: Reg.Event, owner: string, code: string)
    requires !e.ERegister? && '|' !in owner && '|' !in code
    ensures var t, key := After(s, mac, Live(e)), R.Key(owner, code);
      && (key in t.seen <==> key in s.seen && !(owner in s.reg.live && owner !in t.reg.live))
      && (key in t.seen ==> t.seen[key] == s.seen[key])
  {
    hide Reg.After;
    StepOnlyRemoves(s.reg, e);
    ReleaseAllIff(s.seen, NewlyFired(s.reg, Reg.After(s.reg, e)), owner, code);
  }

  /** So the teardown of the live stream frees the node's own claims and no others. */
  lemma LiveTeardownFreesOwn(s: State, mac: R.Mac, k: nat, owner: string, code: string)
    requires k < |s.reg.links| && s.reg.links[k].node in s.reg.live && s.reg.live[s.reg.links[k].node] == k
    requires '|' !in owner && '|' !in code
    ensures var t, key := After(s, mac, Live(Reg.EUnregister(k))), R.Key(owner, code);
      key in t.seen <==> key in s.seen && owner != s.reg.links[k].node
  {
    hide R.Key, ReleaseAll;
    RemovalFreesExactly(s, mac, Reg.EUnregister(k), owner, code);
  }

  /** So does a forced disconnect. */
  lemma DisconnectFreesOwn(s: State, mac: R.Mac, node: string, owner: string, code: string)
    requires node in s.reg.live && '|' !in owner && '|' !in code
    ensures var t, key := After(s, mac, Live(Reg.EDisconnect(node))), R.Key(owner, code);
      key in t.seen <==> key in s.seen && owner != node
  {
    hide R.Key, ReleaseAll;
    RemovalFreesExactly(s, mac, Reg.EDisconnect(node), owner, code);
  }
}
