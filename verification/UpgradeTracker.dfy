/** Progress of node upgrades (upgrade_progress.py): one snapshot per node and step, fed by
    late, repeated and stale events. */
module UpgradeTracker {
  import opened Bytes
  import opened Options
  import opened Text

  const EVENTS_TAIL := 20

  datatype Kind = Runtime | NodeBinary

  function KindOf(s: string): Option<Kind> {
    if s == "runtime" then Some(Runtime) else if s == "node" then Some(NodeBinary) else None
  }

  datatype Status = Dispatched | Restarting | Completed | Failed

  predicate Terminal(s: Status) { s.Completed? || s.Failed? }

  datatype Line = Line(number: int, stage: string, message: string, at: real)

  datatype Snapshot = Snapshot(
    target: string, frameId: string, status: Status, stage: string, message: string,
    percent: int, currentBytes: int, totalBytes: int, error: string,
    updatedAt: real, completedAt: Option<real>, lines: seq<Line>)

  // The console texts, by their meaning.
  const SENT := "sent, waiting for the node"
  const SWITCHED := "runtime switched"
  const ACCEPTED := "accepted, waiting for download and restart"
  const REJECTED := "node rejected the upgrade"
  const REPLACING := "replacing the node program, waiting for the reconnect"
  const UPDATED := "node program updated to v"

  function StripV(s: string): string {
    if s != [] && s[0] == 'v' then StripV(s[1..]) else s
  }

  /** `str(value).strip().lstrip("v")` */
  function Normalized(version: string): string { StripV(Strip(version)) }

  // ---- one snapshot ----

  function NewSnapshot(target: string, frameId: string, now: real): Snapshot {
    Snapshot(target, frameId, Dispatched, "dispatched", SENT, 0, 0, 0, "", now, None, [])
  }

  datatype Progress = Progress(
    kind: string, stage: string, number: int, frameId: string, message: string,
    percent: int, currentBytes: int, totalBytes: int)

  predicate IsStale(s: Snapshot, e: Progress) {
    s.frameId != "" && e.frameId != "" && s.frameId != e.frameId
  }

  predicate Ends(e: Progress) { e.stage == "done" || e.stage == "failed" }

  /** The event is folded in: it is not stale and does not un-finish the step. */
  predicate Counts(s: Snapshot, e: Progress) {
    !IsStale(s, e) && (Terminal(s.status) ==> Ends(e))
  }

  function WithLine(lines: seq<Line>, line: Line): seq<Line> { Last(lines + [line], EVENTS_TAIL) }

  function Folded(s: Snapshot, e: Progress, now: real): Snapshot {
    if !Counts(s, e) then s
    else s.(
      stage := e.stage, message := e.message, percent := e.percent,
      currentBytes := e.currentBytes, totalBytes := e.totalBytes, updatedAt := now,
      status := if e.stage == "done" then Completed else if e.stage == "failed" then Failed else s.status,
      completedAt := if Ends(e) then Some(now) else s.completedAt,
      lines := WithLine(s.lines, Line(e.number, e.stage, e.message, now)))
  }

  function Acked(s: Snapshot, kind: Kind, ok: bool, error: string, now: real): Snapshot {
    if Terminal(s.status) then s
    else if !ok then
      var text := if error != "" then error else REJECTED;
      s.(status := Failed, error := text, message := text, completedAt := Some(now), updatedAt := now)
    else if kind == Runtime then
      s.(status := Completed, stage := "done", percent := 100, message := SWITCHED,
         completedAt := Some(now), updatedAt := now)
    else s.(stage := "downloading", message := ACCEPTED, updatedAt := now)
  }

  function TimedOut(s: Snapshot, message: string, now: real): Snapshot {
    if Terminal(s.status) then s else s.(message := message, updatedAt := now)
  }

  function MarkedRestarting(s: Snapshot, now: real): Snapshot {
    if Terminal(s.status) then s
    else s.(status := Restarting, stage := "restarting", message := REPLACING, updatedAt := now)
  }

  predicate ReachesTarget(s: Snapshot, version: string) {
    Normalized(version) != "" && Normalized(version) == Normalized(s.target)
  }

  function Reconnected(s: Snapshot, version: string, now: real): Snapshot {
    if Terminal(s.status) || !ReachesTarget(s, version) then s
    else
      var text := UPDATED + Normalized(version);
      s.(status := Completed, stage := "done", percent := 100, message := text, updatedAt := now,
         completedAt := Some(now), lines := WithLine(s.lines, Line(-1, "done", text, now)))
  }

  // ---- the tracker ----

  datatype Entry = Entry(runtime: Option<Snapshot>, nodeBinary: Option<Snapshot>)

  type Jobs = map<string, Entry>

  function Slot(jobs: Jobs, node: string, kind: Kind): Option<Snapshot> {
    if node !in jobs then None else if kind == Runtime then jobs[node].runtime else jobs[node].nodeBinary
  }

  function Put(jobs: Jobs, node: string, kind: Kind, s: Snapshot): Jobs {
    var entry := if node in jobs then jobs[node] else Entry(None, None);
    jobs[node := if kind == Runtime then entry.(runtime := Some(s)) else entry.(nodeBinary := Some(s))]
  }

  datatype Op =
    | Init(kind: string, target: string, frameId: string)
    | Apply(event: Progress)
    | Ack(kind: string, ok: bool, error: string)
    | AckTimeout(kind: string, message: string)
    | Restart
    | Reconnect(version: string)

  /** The step an operation is about. */
  function Concerns(op: Op): Option<Kind> {
    match op
    case Init(kind, _, _) => KindOf(kind)
    case Apply(event) => KindOf(event.kind)
    case Ack(kind, _, _) => KindOf(kind)
    case AckTimeout(kind, _) => KindOf(kind)
    case Restart => Some(NodeBinary)
    case Reconnect(_) => Some(NodeBinary)
  }

  /** What an operation does to the snapshot of its step. */
  function Changed(slot: Option<Snapshot>, kind: Kind, op: Op, now: real): Option<Snapshot> {
    if op.Init? then Some(NewSnapshot(op.target, op.frameId, now))
    else if slot.None? then None
    else Some(match op
      case Init(_, _, _) => slot.value
      case Apply(event) => Folded(slot.value, event, now)
      case Ack(_, ok, error) => Acked(slot.value, kind, ok, error, now)
      case AckTimeout(_, message) => TimedOut(slot.value, message, now)
      case Restart => MarkedRestarting(slot.value, now)
      case Reconnect(version) => Reconnected(slot.value, version, now))
  }

  function After(jobs: Jobs, node: string, op: Op, now: real): Jobs {
    var kind := Concerns(op);
    if kind.None? then jobs
    else
      var slot := Changed(Slot(jobs, node, kind.value), kind.value, op, now);
      if slot.None? then jobs else Put(jobs, node, kind.value, slot.value)
  }

  /** A snapshot looked at but not changed. */
  lemma PutBack(jobs: Jobs, node: string, kind: Kind, s: Snapshot)
    requires Slot(jobs, node, kind) == Some(s)
    ensures Put(jobs, node, kind, s) == jobs
  {
    assert Put(jobs, node, kind, s)[node] == jobs[node];
  }

  class UpgradeTracker {
    var jobs: Jobs

    constructor ()
      ensures jobs == map[]
    {
      jobs := map[];
    }

    method Init(node: string, kind: string, target: string, frameId: string, now: real)
      modifies this
      ensures jobs == After(old(jobs), node, Op.Init(kind, target, frameId), now)
    {
      var k := KindOf(kind);
      if k.None? {
        return;
      }
      if node !in jobs {
        jobs := jobs[node := Entry(None, None)];
      }
      var s := Snapshot(target, frameId, Dispatched, "dispatched", SENT, 0, 0, 0, "", now, None, []);
      if k.value == Runtime {
        jobs := jobs[node := jobs[node].(runtime := Some(s))];
      } else {
        jobs := jobs[node := jobs[node].(nodeBinary := Some(s))];
      }
    }

    method Apply(node: string, event: Progress, now: real)
      modifies this
      ensures jobs == After(old(jobs), node, Op.Apply(event), now)
    {
      var k := KindOf(event.kind);
      if k.None? {
        return;
      }
      var slot := Slot(jobs, node, k.value);
      if slot.None? {
        return;
      }
      var s := slot.value;
      if s.frameId != "" && event.frameId != "" && s.frameId != event.frameId {
        PutBack(jobs, node, k.value, s);
        return;
      }
      var terminal := event.stage == "done" || event.stage == "failed";
      if Terminal(s.status) && !terminal {
        PutBack(jobs, node, k.value, s);
        return;
      }
      s := s.(stage := event.stage, message := event.message, percent := event.percent,
              currentBytes := event.currentBytes, totalBytes := event.totalBytes, updatedAt := now);
      if terminal {
        s := s.(status := if event.stage == "done" then Completed else Failed, completedAt := Some(now));
      }
      s := s.(lines := WithLine(s.lines, Line(event.number, event.stage, event.message, now)));
      jobs := Put(jobs, node, k.value, s);
    }

    method FinalizeFromAck(node: string, kind: string, ok: bool, error: string, now: real)
      modifies this
      ensures jobs == After(old(jobs), node, Op.Ack(kind, ok, error), now)
    {
      var k := KindOf(kind);
      if k.None? {
        return;
      }
      var slot := Slot(jobs, node, k.value);
      if slot.None? {
        return;
      }
      var s := slot.value;
      if Terminal(s.status) {
        PutBack(jobs, node, k.value, s);
        return;
      }
      s := s.(updatedAt := now);
      if ok {
        if k.value == Runtime {
          s := s.(status := Completed, stage := "done", percent := 100);
          s := s.(message := SWITCHED, completedAt := Some(now));
        } else {
          s := s.(stage := "downloading", message := ACCEPTED);
        }
      } else {
        s := s.(status := Failed, error := if error != "" then error else REJECTED);
        s := s.(message := s.error, completedAt := Some(now));
      }
      jobs := Put(jobs, node, k.value, s);
    }

    method NoteAckTimeout(node: string, kind: string, message: string, now: real)
      modifies this
      ensures jobs == After(old(jobs), node, Op.AckTimeout(kind, message), now)
    {
      var k := KindOf(kind);
      if k.None? {
        return;
      }
      var slot := Slot(jobs, node, k.value);
      if slot.None? {
        return;
      }
      var s := slot.value;
      if Terminal(s.status) {
        PutBack(jobs, node, k.value, s);
        return;
      }
      s := s.(message := message);
      s := s.(updatedAt := now);
      jobs := Put(jobs, node, k.value, s);
    }

    method MarkRestarting(node: string, now: real)
      modifies this
      ensures jobs == After(old(jobs), node, Op.Restart, now)
    {
      var slot := Slot(jobs, node, NodeBinary);
      if slot.None? {
        return;
      }
      var s := slot.value;
      if Terminal(s.status) {
        PutBack(jobs, node, NodeBinary, s);
        return;
      }
      s := s.(status := Restarting, stage := "restarting");
      s := s.(message := REPLACING, updatedAt := now);
      jobs := Put(jobs, node, NodeBinary, s);
    }

    method FinalizeFromReconnect(node: string, version: string, now: real)
      modifies this
      ensures jobs == After(old(jobs), node, Op.Reconnect(version), now)
    {
      hide Normalized;
      var reported := Normalized(version);
      var slot := Slot(jobs, node, NodeBinary);
      if slot.None? {
        return;
      }
      var s := slot.value;
      if reported == "" || Terminal(s.status) || reported != Normalized(s.target) {
        PutBack(jobs, node, NodeBinary, s);
        return;
      }
      s := s.(status := Completed, stage := "done", percent := 100);
      s := s.(message := UPDATED + reported, updatedAt := now, completedAt := Some(now));
      s := s.(lines := WithLine(s.lines, Line(-1, "done", s.message, now)));
      jobs := Put(jobs, node, NodeBinary, s);
    }
  }

  // ---- runs ----

  datatype Event = Event(node: string, op: Op, now: real)

  function Run(es: seq<Event>): Jobs {
    if es == [] then map[]
    else After(Run(es[..|es| - 1]), es[|es| - 1].node, es[|es| - 1].op, es[|es| - 1].now)
  }

  predicate Addresses(e: Event, node: string, kind: Kind) {
    e.node == node && Concerns(e.op) == Some(kind)
  }

  /** An operation touches only the slot it names. */
  lemma StepOnSlot(jobs: Jobs, e: Event, node: string, kind: Kind)
    ensures Slot(After(jobs, e.node, e.op, e.now), node, kind) ==
      if Addresses(e, node, kind) then Changed(Slot(jobs, node, kind), kind, e.op, e.now)
      else Slot(jobs, node, kind)
  {
    hide Folded, Acked, TimedOut, MarkedRestarting, Reconnected;
  }

  /** The lines appended to a step since its last `init`. */
  function Appended(es: seq<Event>, node: string, kind: Kind): seq<Line> {
    if es == [] then []
    else
      var before, e := es[..|es| - 1], es[|es| - 1];
      var lines, slot := Appended(before, node, kind), Slot(Run(before), node, kind);
      if !Addresses(e, node, kind) || (slot.None? && !e.op.Init?) then lines
      else match e.op
        case Init(_, _, _) => []
        case Apply(p) => if Counts(slot.value, p) then lines + [Line(p.number, p.stage, p.message, e.now)] else lines
        case Reconnect(version) =>
          if !Terminal(slot.value.status) && ReachesTarget(slot.value, version) then
            lines + [Line(-1, "done", UPDATED + Normalized(version), e.now)]
          else lines
        case _ => lines
  }

  /** What is true of every snapshot. */
  predicate Consistent(s: Snapshot) {
    && (s.completedAt.Some? <==> Terminal(s.status))
    && (s.stage == "done" <==> s.status == Completed)
  }

  lemma ChangedIsConsistent(s: Snapshot, kind: Kind, op: Op, now: real)
    requires Consistent(s)
    ensures Consistent(Changed(Some(s), kind, op, now).value)
  {
    hide Strip, StripV;
  }

  /** In every reachable state: a completion time exactly when finished, stage "done" exactly
      when completed, and the retained lines are the last twenty appended since `init`. */
  lemma {:induction false} EverySnapshotIsConsistent(es: seq<Event>, node: string, kind: Kind)
    ensures var slot := Slot(Run(es), node, kind);
      slot.Some? ==>
        Consistent(slot.value) && slot.value.lines == Last(Appended(es, node, kind), 20)
  {
    hide Slot, After, Normalized, Consistent, ReachesTarget;
    if es == [] {
      NoSlot(node, kind);
    } else {
      var before, e := es[..|es| - 1], es[|es| - 1];
      EverySnapshotIsConsistent(before, node, kind);
      StepOnSlot(Run(before), e, node, kind);
      var slot := Slot(Run(before), node, kind);
      if Addresses(e, node, kind) {
        if e.op.Init? {
          FreshIsConsistent(e.op.target, e.op.frameId, e.now);
        } else if slot.Some? {
          ChangedIsConsistent(slot.value, kind, e.op, e.now);
          TailOfTail(Appended(before, node, kind));
        }
      }
    }
  }

  lemma NoSlot(node: string, kind: Kind)
    ensures Slot(map[], node, kind) == None
  {
  }

  lemma FreshIsConsistent(target: string, frameId: string, now: real)
    ensures Consistent(NewSnapshot(target, frameId, now))
  {
  }

  lemma TailOfTail(lines: seq<Line>)
    ensures forall line :: WithLine(Last(lines, EVENTS_TAIL), line) == Last(lines + [line], EVENTS_TAIL)
  {
    forall line ensures WithLine(Last(lines, EVENTS_TAIL), line) == Last(lines + [line], EVENTS_TAIL) {
      LastOfLast(lines, [line], EVENTS_TAIL);
    }
  }

  /** Until the next `init` of that step, a finished step stays finished. */
  lemma {:induction false} FinishedStaysFinished(es: seq<Event>, n: nat, node: string, kind: Kind)
    requires n <= |es| && Slot(Run(es[..n]), node, kind).Some?
    requires Terminal(Slot(Run(es[..n]), node, kind).value.status)
    requires forall i :: n <= i < |es| && Addresses(es[i], node, kind) ==> !es[i].op.Init?
    ensures Slot(Run(es), node, kind).Some? && Terminal(Slot(Run(es), node, kind).value.status)
    decreases |es| - n
  {
    hide Slot, After, Normalized, ReachesTarget, Addresses;
    if n == |es| {
      assert es[..n] == es;
    } else {
      assert es[..n + 1][..n] == es[..n];
      StepOnSlot(Run(es[..n]), es[n], node, kind);
      FinishedStaysFinished(es, n + 1, node, kind);
    }
  }

  /** An event left over from another upgrade changes nothing. */
  lemma StaleEventIsIgnored(jobs: Jobs, node: string, kind: Kind, p: Progress, now: real)
    requires KindOf(p.kind) == Some(kind) && Slot(jobs, node, kind).Some?
    requires IsStale(Slot(jobs, node, kind).value, p)
    ensures After(jobs, node, Apply(p), now) == jobs
  {
    var s := Slot(jobs, node, kind).value;
    assert Folded(s, p, now) == s;
    PutBack(jobs, node, kind, s);
  }

  /** How a step comes to be completed. For the node binary an ack never does it. */
  lemma CompletesOnlyBy(s: Snapshot, kind: Kind, op: Op, now: real)
    requires s.status != Completed && !op.Init?
    ensures Changed(Some(s), kind, op, now).value.status == Completed <==>
      || (op.Apply? && op.event.stage == "done" && !IsStale(s, op.event))
      || (op.Ack? && op.ok && kind == Runtime && s.status != Failed)
      || (op.Reconnect? && ReachesTarget(s, op.version) && s.status != Failed)
  {
    hide Normalized;
  }

  // ---- what each operation tells ----

  /** An event that is neither stale nor late is shown as it came; "done" and "failed" finish
      the step. */
  lemma EventIsShown(s: Snapshot, kind: Kind, e: Progress, now: real)
    requires s.frameId == "" || e.frameId == "" || s.frameId == e.frameId
    requires s.status == Completed || s.status == Failed ==> e.stage == "done" || e.stage == "failed"
    ensures var t := Changed(Some(s), kind, Op.Apply(e), now).value;
      && t.stage == e.stage && t.message == e.message && t.percent == e.percent
      && t.currentBytes == e.currentBytes && t.totalBytes == e.totalBytes && t.updatedAt == now
      && (e.stage == "done" ==> t.status == Completed && t.completedAt == Some(now))
      && (e.stage == "failed" ==> t.status == Failed && t.completedAt == Some(now))
      && (e.stage != "done" && e.stage != "failed" ==> t.status == s.status && t.completedAt == s.completedAt)
      && t.lines != [] && t.lines[|t.lines| - 1] == Line(e.number, e.stage, e.message, now)
      && t.target == s.target && t.frameId == s.frameId && t.error == s.error
  {
  }

  /** A refused ack fails an unfinished step with its error, or a standard text; a positive one
      completes the runtime step and is a message for the node step. */
  lemma AckIsHeard(s: Snapshot, kind: Kind, ok: bool, error: string, now: real)
    requires s.status != Completed && s.status != Failed
    ensures var t := Changed(Some(s), kind, Op.Ack("", ok, error), now).value;
      && t.updatedAt == now && t.lines == s.lines && t.target == s.target && t.frameId == s.frameId
      && (!ok ==> t.status == Failed && t.completedAt == Some(now) && t.message == t.error
                  && t.error == if error == "" then "node rejected the upgrade" else error)
      && (ok && kind == Runtime ==> t.status == Completed && t.stage == "done" && t.percent == 100
                                    && t.completedAt == Some(now))
      && (ok && kind == NodeBinary ==>
            t.status == s.status && t.stage == "downloading" && t.completedAt == s.completedAt)
  {
  }

  /** A timeout of the ack leaves a message; the loss of the connection marks the node step as
      restarting; neither finishes anything, and a finished step is left alone. */
  lemma WaitingIsShown(s: Snapshot, message: string, now: real)
    ensures var timedOut := Changed(Some(s), NodeBinary, Op.AckTimeout("", message), now).value;
      var restarting := Changed(Some(s), NodeBinary, Op.Restart, now).value;
      if s.status == Completed || s.status == Failed then timedOut == s == restarting
      else
        && timedOut == s.(message := message, updatedAt := now)
        && restarting.status == Restarting && restarting.stage == "restarting"
        && restarting.completedAt == s.completedAt && restarting.lines == s.lines && restarting.target == s.target
  {
  }

  /** A reconnect completes an unfinished node step exactly when the versions agree, and leaves
      the step alone otherwise. */
  lemma ReconnectIsHeard(s: Snapshot, version: string, now: real)
    requires s.status != Completed && s.status != Failed
    ensures var t := Changed(Some(s), NodeBinary, Op.Reconnect(version), now).value;
      if Normalized(version) != "" && Normalized(version) == Normalized(s.target) then
        t.status == Completed && t.stage == "done" && t.percent == 100 && t.completedAt == Some(now)
        && t.lines != [] && t.lines[|t.lines| - 1].stage == "done"
      else t == s
  {
    hide Normalized;
  }

  /** A new upgrade starts from nothing, under its own frame id and target. */
  lemma InitStartsOver(slot: Option<Snapshot>, kind: Kind, name: string, target: string, frameId: string, now: real)
    ensures var t := Changed(slot, kind, Op.Init(name, target, frameId), now);
      && t.Some? && t.value.target == target && t.value.frameId == frameId && t.value.status == Dispatched
      && t.value.stage == "dispatched" && t.value.percent == 0 && t.value.error == ""
      && t.value.completedAt == None && t.value.lines == []
  {
  }

  lemma {:induction false} StripVs(n: nat, version: string)
    requires version == [] || version[0] != 'v'
    ensures StripV(seq(n, _ => 'v') + version) == version
  {
    var all := seq(n, _ => 'v') + version;
    if n == 0 {
      assert all == version;
    } else {
      assert all[1..] == seq(n - 1, _ => 'v') + version;
      StripVs(n - 1, version);
    }
  }

  /** Two versions count as one when they differ in outer whitespace and in leading letters v. */
  lemma NormalizedIs(a: string, n: nat, version: string, b: string)
    requires forall c :: c in a || c in b ==> IsSpace(c)
    requires version != "" && version[0] != 'v' && !IsSpace(version[0]) && !IsSpace(version[|version| - 1])
    ensures Normalized(a + (seq(n, _ => 'v') + version) + b) == version
  {
    hide Strip, StripV;
    var core := seq(n, _ => 'v') + version;
    assert core[|core| - 1] == version[|version| - 1];
    assert core[0] == if n > 0 then 'v' else version[0];
    assert !IsSpace('v');
    StripCore(a, core, b);
    StripVs(n, version);
  }

  /** The two names of a step; any other name is no step, and changes nothing. */
  lemma StepNames(name: string)
    ensures KindOf(name) ==
      if name == "runtime" then Some(Runtime) else if name == "node" then Some(NodeBinary) else None
    ensures forall jobs: Jobs, node: string, op: Op, now: real ::
      Concerns(op) == None ==> After(jobs, node, op, now) == jobs
    ensures Concerns(Op.Restart) == Some(NodeBinary) && Concerns(Op.Reconnect(name)) == Some(NodeBinary)
  {
  }
}
