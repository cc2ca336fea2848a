/** Choosing the node for a session (service.py, `_select_node` and the checks it uses). The
    ledger and the registry are read as they stand at the call. */
module Placement {
  import opened Options
  import opened Text
  import Reg = RegistrySpec

  datatype Editor = Editor(provider: string, modes: seq<string>)

  datatype Capabilities = Capabilities(docker: bool, providers: seq<string>, editors: seq<Editor>)

  /** Configured limits of a node, 0 where none is set. */
  datatype Capacity = Capacity(maxSessions: int, cpuTotal: real, memoryTotal: int)

  datatype Approval = PendingApproval | Approved | Revoked

  datatype Record = Record(approval: Approval, capacity: Capacity)

  /** A live connection, as far as dispatching looks at it. */
  datatype Conn = Conn(caps: Option<Capabilities>, activeSessions: nat, connectedAt: real, lastBeat: Option<real>)

  datatype Spec = Spec(driver: string, provider: string, mode: string)

  /** What one session is charged. */
  datatype Settings = Settings(cpu: real, memory: int)

  const HEARTBEAT_TIMEOUT := 60.0

  /** Ledger and registry; `order` is the registry's key order, `lower` is `str.lower`, `times`
      the product of a count and a float, however it is rounded. */
  datatype World = World(
    records: map<string, Record>, order: seq<string>, conns: map<string, Conn>, settings: Settings, now: real,
    lower: string -> string, times: (nat, real) -> real)

  // ---- the checks ----

  predicate ConnectionLive(c: Conn, now: real) {
    Reg.LiveAt(c.connectedAt, c.lastBeat, now, HEARTBEAT_TIMEOUT)
  }

  predicate Offers(providers: seq<string>, provider: string, lower: string -> string) {
    exists i :: 0 <= i < |providers| && lower(Strip(providers[i])) == provider
  }

  predicate CapabilityOk(c: Conn, spec: Spec, lower: string -> string) {
    var driver, provider := lower(Strip(spec.driver)), Strip(spec.provider);
    if driver == "docker" then c.caps.Some? && c.caps.value.docker
    else if driver in ["", "local", "process"] then
      provider == "" ||
      (c.caps.Some? && Offers(c.caps.value.providers, lower(provider), lower))
    else false
  }

  /** The first editor entry of the provider decides. */
  function EditorFor(editors: seq<Editor>, provider: string, lower: string -> string): Option<Editor> {
    if editors == [] then None
    else if lower(Strip(editors[0].provider)) == provider then Some(editors[0])
    else EditorFor(editors[1..], provider, lower)
  }

  predicate ModeOk(c: Conn, spec: Spec, lower: string -> string) {
    var mode := Strip(spec.mode);
    mode == "" ||
    (c.caps.Some? &&
      var editor := EditorFor(c.caps.value.editors, lower(Strip(spec.provider)), lower);
      editor.Some? && mode in editor.value.modes)
  }

  predicate CapacityOk(w: World, k: Capacity, active: nat) {
    var charge := w.settings;
    && !(k.maxSessions > 0 && active >= k.maxSessions)
    && !(k.cpuTotal > 0.0 && charge.cpu > 0.0 && w.times(active + 1, charge.cpu) > k.cpuTotal)
    && !(k.memoryTotal > 0 && charge.memory > 0 && (active + 1) * charge.memory > k.memoryTotal)
  }

  /** Why a node cannot run a session, in the order of the checks. */
  datatype Reason = Capability | Mode | Sessions | Cpu | Memory

  function Unsatisfied(w: World, r: Record, c: Conn, spec: Spec): Option<Reason> {
    if !CapabilityOk(c, spec, w.lower) then Some(Capability)
    else if !ModeOk(c, spec, w.lower) then Some(Mode)
    else
      var k, active, charge := r.capacity, c.activeSessions, w.settings;
      if k.maxSessions > 0 && active >= k.maxSessions then Some(Sessions)
      else if k.cpuTotal > 0.0 && charge.cpu > 0.0 && w.times(active + 1, charge.cpu) > k.cpuTotal then Some(Cpu)
      else if k.memoryTotal > 0 && charge.memory > 0 && (active + 1) * charge.memory > k.memoryTotal then Some(Memory)
      else None
  }

  // ---- selection ----

  datatype Error =
    | NotFound | NotApproved | Offline | HeartbeatStale | CannotRun(reason: Reason) | NoNode

  datatype Result = Chosen(node: string, conn: Conn) | Refused(error: Error)

  /** The explicit path: this node or an error. */
  function Explicit(w: World, node: string, spec: Spec): Result {
    if node !in w.records then Refused(NotFound)
    else if w.records[node].approval != Approved then Refused(NotApproved)
    else if node !in w.conns then Refused(Offline)
    else if !ConnectionLive(w.conns[node], w.now) then Refused(HeartbeatStale)
    else
      var reason := Unsatisfied(w, w.records[node], w.conns[node], spec);
      if reason.Some? then Refused(CannotRun(reason.value)) else Chosen(node, w.conns[node])
  }

  method SelectNode(w: World, explicitNode: string, spec: Spec) returns (result: Result)
    requires forall node :: node in w.order <==> node in w.conns
    ensures explicitNode != "" ==> result == Explicit(w, explicitNode, spec)
    ensures explicitNode == "" && result.Refused? ==>
      && result.error == NoNode
      && forall node :: Explicit(w, node, spec).Refused?
    ensures explicitNode == "" && result.Chosen? ==> exists i ::
      && 0 <= i < |w.order| && w.order[i] == result.node && result == Explicit(w, w.order[i], spec)
      && forall j :: 0 <= j < i ==> Explicit(w, w.order[j], spec).Refused?
  {
    hide CapabilityOk, ModeOk, ConnectionLive, Unsatisfied;
    if explicitNode != "" {
      if explicitNode !in w.records {
        return Refused(NotFound);
      }
      var record := w.records[explicitNode];
      if record.approval != Approved {
        return Refused(NotApproved);
      }
      if explicitNode !in w.conns {
        return Refused(Offline);
      }
      var conn := w.conns[explicitNode];
      if !ConnectionLive(conn, w.now) {
        return Refused(HeartbeatStale);
      }
      var reason := Unsatisfied(w, record, conn, spec);
      if reason.Some? {
        return Refused(CannotRun(reason.value));
      }
      return Chosen(explicitNode, conn);
    }
    var i := 0;
    while i < |w.order|
      invariant 0 <= i <= |w.order|
      invariant forall j :: 0 <= j < i ==> Explicit(w, w.order[j], spec).Refused?
    {
      var node := w.order[i];
      if node in w.records && w.records[node].approval == Approved && node in w.conns &&
         ConnectionLive(w.conns[node], w.now)
      {
        var reason := Unsatisfied(w, w.records[node], w.conns[node], spec);
        if reason.None? {
          return Chosen(node, w.conns[node]);
        }
      }
      i := i + 1;
    }
    return Refused(NoNode);
  }

  /** A node is accepted exactly when it is approved, live, able, and below every limit. */
  lemma ExplicitIff(w: World, node: string, spec: Spec)
    ensures Explicit(w, node, spec).Chosen? <==>
      && node in w.records && w.records[node].approval == Approved
      && node in w.conns && ConnectionLive(w.conns[node], w.now)
      && CapabilityOk(w.conns[node], spec, w.lower) && ModeOk(w.conns[node], spec, w.lower)
      && CapacityOk(w, w.records[node].capacity, w.conns[node].activeSessions)
  {
    hide CapabilityOk, ModeOk, ConnectionLive;
  }

  /** A selected node has room for one more session under every limit that is configured. */
  lemma ChosenHasRoom(w: World, node: string, spec: Spec)
    requires Explicit(w, node, spec).Chosen?
    ensures var k, after := w.records[node].capacity, w.conns[node].activeSessions + 1;
      && (k.maxSessions > 0 ==> after <= k.maxSessions)
      && (k.cpuTotal > 0.0 && w.settings.cpu > 0.0 ==> w.times(after, w.settings.cpu) <= k.cpuTotal)
      && (k.memoryTotal > 0 && w.settings.memory > 0 ==> after * w.settings.memory <= k.memoryTotal)
  {
    hide CapabilityOk, ModeOk, ConnectionLive;
    ExplicitIff(w, node, spec);
  }

  /** A requested mode is never silently widened: a session with a mode only goes to a node
      whose editor for exactly that provider lists that mode. */
  lemma ChosenOffersMode(w: World, node: string, spec: Spec)
    requires Explicit(w, node, spec).Chosen? && Strip(spec.mode) != ""
    ensures w.conns[node].caps.Some?
    ensures exists e ::
      && e in w.conns[node].caps.value.editors
      && w.lower(Strip(e.provider)) == w.lower(Strip(spec.provider)) && Strip(spec.mode) in e.modes
  {
    hide CapabilityOk, ConnectionLive, Strip;
    ExplicitIff(w, node, spec);
    EditorForFinds(w.conns[node].caps.value.editors, w.lower(Strip(spec.provider)), w.lower);
  }

  lemma {:induction false} EditorForFinds(editors: seq<Editor>, provider: string, lower: string -> string)
    ensures var found := EditorFor(editors, provider, lower);
      found.Some? ==> found.value in editors && lower(Strip(found.value.provider)) == provider
  {
    if editors != [] { EditorForFinds(editors[1..], provider, lower); }
  }

  // ---- selection and the reaper ----

  /** The call sees the connections the registry holds. */
  ghost predicate Sees(w: World, s: Reg.State) {
    && w.conns.Keys == s.live.Keys
    && forall node :: node in s.live ==>
      && s.live[node] < |s.links|
      && w.conns[node].connectedAt == s.links[s.live[node]].connectedAt
      && w.conns[node].lastBeat == s.links[s.live[node]].lastBeat
  }

  /** At any moment the nodes a reap would leave are exactly those selection takes for live. */
  lemma ReapAgreesWithSelection(w: World, s: Reg.State, node: string)
    requires Reg.Sound(s) && Reg.Balanced(s) && Reg.AllInOrder(s.links, w.now) && Sees(w, s)
    ensures node in Reg.Reap(s, w.now, 60.0).live <==>
      node in w.conns && ConnectionLive(w.conns[node], w.now)
  {
    hide Reg.Sound, Reg.Balanced, Reg.Reap;
    assert forall k :: 0 <= k < |s.links| ==> Reg.InOrder(s.links[k], w.now);
    Reg.ReapLeavesTheLive(s, w.now, HEARTBEAT_TIMEOUT, node);
  }

  // ---- what each check asks for ----

  /** A docker session goes only to a node with docker; a local one to a node that offers its
      provider, in whatever case and with whatever whitespace around, or to any node when it
      names none; a session with any other driver goes nowhere. */
  lemma DriverDecides(c: Conn, spec: Spec, lower: string -> string)
    ensures var driver, provider := lower(Strip(spec.driver)), Strip(spec.provider);
      && (driver == "docker" ==> (CapabilityOk(c, spec, lower) <==> c.caps.Some? && c.caps.value.docker))
      && (driver == "" || driver == "local" || driver == "process" ==>
            (CapabilityOk(c, spec, lower) <==>
               provider == "" || (c.caps.Some? &&
                 exists p :: p in c.caps.value.providers && lower(Strip(p)) == lower(provider))))
      && (driver != "docker" && driver != "" && driver != "local" && driver != "process" ==>
            !CapabilityOk(c, spec, lower))
  {
    hide Strip;
    if c.caps.Some? { OffersIff(c.caps.value.providers, lower(Strip(spec.provider)), lower); }
  }

  lemma OffersIff(providers: seq<string>, provider: string, lower: string -> string)
    ensures Offers(providers, provider, lower) <==> exists p :: p in providers && lower(Strip(p)) == provider
  {
    hide Strip;
    if p :| p in providers && lower(Strip(p)) == provider {
      var i :| 0 <= i < |providers| && providers[i] == p;
      assert lower(Strip(providers[i])) == provider;
    }
    if i :| 0 <= i < |providers| && lower(Strip(providers[i])) == provider {
      assert providers[i] in providers;
    }
  }

  /** The first editor entry of this provider. */
  ghost predicate IsFirst(before: seq<Editor>, editor: Editor, provider: string, lower: string -> string) {
    && lower(Strip(editor.provider)) == provider
    && forall e :: e in before ==> lower(Strip(e.provider)) != provider
  }

  /** Without a mode every node will do; with one, the first editor of the session's provider
      must list it. */
  lemma ModeDecides(c: Conn, spec: Spec, lower: string -> string,
                    before: seq<Editor>, editor: Editor, after: seq<Editor>)
    ensures Strip(spec.mode) == "" ==> ModeOk(c, spec, lower)
    ensures Strip(spec.mode) != "" && c.caps.None? ==> !ModeOk(c, spec, lower)
    ensures Strip(spec.mode) != "" && c.caps.Some? && c.caps.value.editors == before + [editor] + after ==>
      IsFirst(before, editor, lower(Strip(spec.provider)), lower) ==>
      (ModeOk(c, spec, lower) <==> Strip(spec.mode) in editor.modes)
  {
    hide Strip;
    if IsFirst(before, editor, lower(Strip(spec.provider)), lower) {
      EditorForFirst(before, editor, after, lower(Strip(spec.provider)), lower);
    }
  }

  lemma {:induction false} EditorForFirst(before: seq<Editor>, editor: Editor, after: seq<Editor>, provider: string,
                                          lower: string -> string)
    requires IsFirst(before, editor, provider, lower)
    ensures EditorFor(before + [editor] + after, provider, lower) == Some(editor)
  {
    hide Strip;
    var all := before + [editor] + after;
    if before == [] {
      assert all[0] == editor;
    } else {
      assert all[0] == before[0] && before[0] in before && all[1..] == before[1..] + [editor] + after;
      EditorForFirst(before[1..], editor, after, provider, lower);
    }
  }

  /** Which error an explicit choice is refused with: the first of these that applies. */
  lemma RefusalIs(w: World, node: string, spec: Spec)
    ensures var r := Explicit(w, node, spec);
      if node !in w.records then r == Refused(NotFound)
      else if w.records[node].approval != Approved then r == Refused(NotApproved)
      else if node !in w.conns then r == Refused(Offline)
      else if !ConnectionLive(w.conns[node], w.now) then r == Refused(HeartbeatStale)
      else
        var k, active := w.records[node].capacity, w.conns[node].activeSessions;
        if !CapabilityOk(w.conns[node], spec, w.lower) then r == Refused(CannotRun(Capability))
        else if !ModeOk(w.conns[node], spec, w.lower) then r == Refused(CannotRun(Mode))
        else if k.maxSessions > 0 && active >= k.maxSessions then r == Refused(CannotRun(Sessions))
        else if k.cpuTotal > 0.0 && w.settings.cpu > 0.0 && w.times(active + 1, w.settings.cpu) > k.cpuTotal then
          r == Refused(CannotRun(Cpu))
        else if k.memoryTotal > 0 && w.settings.memory > 0 && (active + 1) * w.settings.memory > k.memoryTotal then
          r == Refused(CannotRun(Memory))
        else r == Chosen(node, w.conns[node])
  {
    hide CapabilityOk, ModeOk, ConnectionLive;
  }
}
