/** One live node connection (registry.py, `Connection`): the downstream queue, the ack
    waiters and the stderr tails. */
module Connection {
  import opened Bytes
  import opened Options

  const DOWNSTREAM_BUFFER := 64
  const STDERR_TAIL_BYTES := 16 * 1024

  datatype Ack = Ack(frameId: string, ok: bool)

  datatype Future = Pending | Result(ack: Ack) | Error | Cancelled

  /** A future and the frame id it was registered under. */
  datatype Waiter = Waiter(frameId: string, future: Future)

  /** An entry of the downstream queue; the sentinel wakes the pump after a close. */
  datatype Item = Command(frameId: string) | Sentinel

  /** The fields that matter to waiters. Futures are numbered in order of creation; `acks`
      holds the number registered for each frame id. */
  datatype State = State(closed: bool, queue: seq<Item>, acks: map<string, nat>, waiters: seq<Waiter>)

  const OPENED := State(false, [], map[], [])

  function CanSend(s: State): bool { !s.closed && |s.queue| < DOWNSTREAM_BUFFER }

  function Resolved(s: State, k: nat, to: Future): State {
    if k < |s.waiters| && s.waiters[k].future.Pending? then
      s.(waiters := s.waiters[k := s.waiters[k].(future := to)])
    else s
  }

  /** `await_ack`, then `send`, with `cancel_ack` when the send raises. The waiter of a failed
      send is given up with it: its caller gets the error instead. */
  function Dispatch(s: State, id: string): State {
    if CanSend(s) then
      State(s.closed, s.queue + [Command(id)], s.acks[id := |s.waiters|], s.waiters + [Waiter(id, Pending)])
    else s.(acks := s.acks - {id})
  }

  /** `deliver_ack` */
  function Deliver(s: State, ack: Ack): State {
    if ack.frameId in s.acks then
      Resolved(s, s.acks[ack.frameId], Result(ack)).(acks := s.acks - {ack.frameId})
    else s
  }

  /** The caller's `wait_for` ran out: the future is cancelled and the id dropped. */
  function TimeOut(s: State, k: nat): State {
    if k < |s.waiters| && s.waiters[k].future.Pending? then
      Resolved(s, k, Cancelled).(acks := s.acks - {s.waiters[k].frameId})
    else s
  }

  /** `downstream_get` */
  function Pump(s: State): State {
    if s.queue == [] then s else s.(queue := s.queue[1..])
  }

  function FailAll(waiters: seq<Waiter>, which: set<nat>): seq<Waiter> {
    seq(|waiters|, k requires 0 <= k < |waiters| =>
      if k in which && waiters[k].future.Pending? then waiters[k].(future := Error) else waiters[k])
  }

  lemma FailOneMore(waiters: seq<Waiter>, all: set<nat>, todo: set<nat>, k: nat)
    requires k in todo && todo <= all
    ensures var before, after := FailAll(waiters, all - todo), FailAll(waiters, all - (todo - {k}));
      after == if k < |before| && before[k].future.Pending? then before[k := before[k].(future := Error)] else before
  {
  }

  /** `close` */
  function Shut(s: State): State {
    if s.closed then s
    else State(
      true,
      if |s.queue| < DOWNSTREAM_BUFFER then s.queue + [Sentinel] else s.queue,
      map[],
      FailAll(s.waiters, s.acks.Values))
  }

  class Connection {
    const nodeId: string
    const connectedAt: real
    var lastHeartbeat: Option<real>
    var closed: bool
    var queue: seq<Item>
    var acks: map<string, nat>
    var waiters: seq<Waiter>
    var stderrTails: map<string, seq<Byte>>
    /** Everything a session wrote to stderr since it was last forgotten. */
    ghost var written: map<string, seq<Byte>>

    function View(): State
      reads this
    {
      State(closed, queue, acks, waiters)
    }

    /** Every retained tail is the end of what was written. */
    ghost predicate TailsValid()
      reads this
    {
      && stderrTails.Keys == written.Keys
      && forall id :: id in written ==> stderrTails[id] == Last(written[id], 16384)
    }

    constructor (nodeId: string, now: real)
      ensures this.nodeId == nodeId && connectedAt == now && lastHeartbeat == None
      ensures View() == OPENED
      ensures TailsValid() && written == map[]
    {
      this.nodeId, connectedAt := nodeId, now;
      lastHeartbeat, closed, queue, acks, waiters := None, false, [], map[], [];
      stderrTails, written := map[], map[];
    }

    method NoteHeartbeat(now: real)
      modifies this`lastHeartbeat
      ensures lastHeartbeat == Some(now)
    {
      lastHeartbeat := Some(now);
    }

    method Send(item: Item) returns (ok: bool)
      modifies this`queue
      ensures ok == CanSend(old(View()))
      ensures View() == old(View()).(queue := if ok then old(queue) + [item] else old(queue))
    {
      if closed || |queue| >= DOWNSTREAM_BUFFER {
        return false;
      }
      queue := queue + [item];
      return true;
    }

    method AwaitAck(id: string) returns (k: nat)
      modifies this`acks, this`waiters
      ensures k == |old(waiters)|
      ensures View() == old(View()).(acks := old(acks)[id := k], waiters := old(waiters) + [Waiter(id, Pending)])
    {
      k := |waiters|;
      waiters := waiters + [Waiter(id, Pending)];
      acks := acks[id := k];
    }

    method CancelAck(id: string)
      modifies this`acks
      ensures View() == old(View()).(acks := old(acks) - {id})
    {
      acks := acks - {id};
    }

    method DeliverAck(ack: Ack)
      modifies this`acks, this`waiters
      ensures View() == Deliver(old(View()), ack)
    {
      if ack.frameId in acks {
        var k := acks[ack.frameId];
        acks := acks - {ack.frameId};
        if k < |waiters| && waiters[k].future.Pending? {
          waiters := waiters[k := waiters[k].(future := Result(ack))];
        }
      }
    }

    /** The pattern of every dispatch: register the waiter, send, take it back on failure. */
    method DispatchCommand(id: string) returns (waiter: Option<nat>)
      modifies this`queue, this`acks, this`waiters
      ensures View() == Dispatch(old(View()), id)
      ensures waiter == if CanSend(old(View())) then Some(|old(waiters)|) else None
    {
      var k := AwaitAck(id);
      var ok := Send(Command(id));
      if !ok {
        CancelAck(id);
        waiters := waiters[..k];
        return None;
      }
      return Some(k);
    }

    method Close()
      modifies this`closed, this`queue, this`acks, this`waiters
      ensures View() == Shut(old(View()))
    {
      if closed {
        return;
      }
      closed := true;
      if |queue| < DOWNSTREAM_BUFFER {
        queue := queue + [Sentinel];
      }
      FailWaiters();
      acks := map[];
    }

    /** Every registered waiter that still waits gets the error. */
    method FailWaiters()
      modifies this`waiters
      ensures waiters == FailAll(old(waiters), acks.Values)
    {
      var todo := acks.Values;
      assert waiters == FailAll(waiters, acks.Values - todo);
      while todo != {}
        invariant todo <= acks.Values
        invariant waiters == FailAll(old(waiters), acks.Values - todo)
        decreases |todo|
      {
        var k :| k in todo;
        FailOneMore(old(waiters), acks.Values, todo, k);
        if k < |waiters| && waiters[k].future.Pending? {
          waiters := waiters[k := waiters[k].(future := Error)];
        }
        todo := todo - {k};
      }
      assert acks.Values - todo == acks.Values;
    }

    method NoteStderr(id: string, data: seq<Byte>)
      requires TailsValid()
      modifies this`stderrTails, this`written
      ensures TailsValid()
      ensures written == if id == "" || data == [] then old(written)
        else old(written)[id := (if id in old(written) then old(written)[id] else []) + data]
    {
      if id == "" || data == [] {
        return;
      }
      var tail := if id in stderrTails then stderrTails[id] else [];
      ghost var before := if id in written then written[id] else [];
      LastOfLast(before, data, STDERR_TAIL_BYTES);
      assert tail == Last(before, STDERR_TAIL_BYTES);
      tail := tail + data;
      if |tail| > STDERR_TAIL_BYTES {
        tail := tail[|tail| - STDERR_TAIL_BYTES..];
      }
      assert tail == Last(before + data, STDERR_TAIL_BYTES);
      hide Last;
      stderrTails := stderrTails[id := tail];
      written := written[id := before + data];
    }

    method ForgetStderr(id: string)
      requires TailsValid()
      modifies this`stderrTails, this`written
      ensures TailsValid()
      ensures written == old(written) - {id}
    {
      stderrTails := stderrTails - {id};
      written := written - {id};
    }
  }

  // ---- runs ----

  datatype Event =
    | EDispatch(id: string)
    | EAck(ack: Ack)
    | ETimeOut(waiter: nat)
    | EPump
    | EClose

  function After(s: State, e: Event): State {
    match e
    case EDispatch(id) => Dispatch(s, id)
    case EAck(ack) => Deliver(s, ack)
    case ETimeOut(k) => TimeOut(s, k)
    case EPump => Pump(s)
    case EClose => Shut(s)
  }

  /** Frame ids are fresh: none is dispatched while it is still registered. */
  predicate Admissible(s: State, e: Event) {
    e.EDispatch? ==> e.id !in s.acks
  }

  function Run(es: seq<Event>): State {
    if es == [] then OPENED else After(Run(es[..|es| - 1]), es[|es| - 1])
  }

  ghost predicate AllAdmissible(es: seq<Event>) {
    forall i :: 0 <= i < |es| ==> Admissible(Run(es[..i]), es[i])
  }

  /** Waiters and registrations correspond: a pending waiter is registered under its own id,
      with an open connection, and nothing else is registered. */
  ghost predicate NoneStranded(s: State) {
    && (s.closed ==> s.acks == map[])
    && (forall id :: id in s.acks ==>
          s.acks[id] < |s.waiters| && s.waiters[s.acks[id]] == Waiter(id, Pending))
    && (forall k :: 0 <= k < |s.waiters| && s.waiters[k].future.Pending? ==>
          s.waiters[k].frameId in s.acks && s.acks[s.waiters[k].frameId] == k)
  }

  lemma StepStrandsNone(s: State, e: Event)
    requires NoneStranded(s) && Admissible(s, e)
    ensures NoneStranded(After(s, e))
  {
    hide Shut, Dispatch, NoneStranded;
    match e
    case EDispatch(id) => DispatchStrandsNone(s, id);
    case EAck(ack) => if ack.frameId in s.acks { WaiterLeaves(s, ack.frameId, Result(ack)); }
    case ETimeOut(k) => if k < |s.waiters| && s.waiters[k].future.Pending? { TimeOutLeaves(s, k); }
    case EPump => PumpStrandsNone(s);
    case EClose => CloseStrandsNone(s);
  }

  lemma DispatchStrandsNone(s: State, id: string)
    requires NoneStranded(s) && id !in s.acks
    ensures NoneStranded(Dispatch(s, id))
  {
  }

  /** A registered waiter is completed and its registration dropped. */
  lemma WaiterLeaves(s: State, id: string, to: Future)
    requires NoneStranded(s) && id in s.acks && !to.Pending?
    ensures NoneStranded(Resolved(s, s.acks[id], to).(acks := s.acks - {id}))
  {
  }

  lemma TimeOutLeaves(s: State, k: nat)
    requires NoneStranded(s) && k < |s.waiters| && s.waiters[k].future.Pending?
    ensures NoneStranded(TimeOut(s, k))
  {
    hide Resolved;
    WaiterLeaves(s, s.waiters[k].frameId, Cancelled);
  }

  lemma PumpStrandsNone(s: State)
    requires NoneStranded(s)
    ensures NoneStranded(Pump(s))
  {
  }

  lemma CloseStrandsNone(s: State)
    requires NoneStranded(s)
    ensures NoneStranded(Shut(s))
  {
    if !s.closed {
      var t := Shut(s);
      forall k | 0 <= k < |t.waiters| ensures !t.waiters[k].future.Pending? {
        if s.waiters[k].future.Pending? {
          assert k in s.acks.Values by { assert s.acks[s.waiters[k].frameId] == k; }
        }
      }
    }
  }

  /** In every reachable state nobody waits in vain: a pending waiter sits in the table of an
      open connection, so its ack, its timeout or the close will complete it; a closed
      connection holds no waiter. */
  lemma {:induction false} NoStrandedWaiter(es: seq<Event>)
    requires AllAdmissible(es)
    ensures NoneStranded(Run(es))
    ensures Run(es).closed ==>
      forall k :: 0 <= k < |Run(es).waiters| ==> !Run(es).waiters[k].future.Pending?
  {
    if es != [] {
      var init := es[..|es| - 1];
      forall i | 0 <= i < |init| ensures Admissible(Run(init[..i]), init[i]) {
        assert es[..i] == init[..i];
      }
      NoStrandedWaiter(init);
      StepStrandsNone(Run(init), es[|es| - 1]);
    }
  }

  /** What one event may do to one waiter. */
  predicate Completes(w: Waiter, e: Event, k: nat, future: Future) {
    || (e.EAck? && future == Result(e.ack) && e.ack.frameId == w.frameId)
    || (e == ETimeOut(k) && future == Cancelled)
    || (e.EClose? && future == Error)
  }

  /** A completed waiter never changes again, and a pending one is completed only by the ack
      with its own frame id, by its own timeout, or by the close. */
  lemma CompletedOnce(s: State, e: Event, k: nat)
    requires NoneStranded(s) && Admissible(s, e) && k < |s.waiters|
    ensures var t := After(s, e);
      && k < |t.waiters| && t.waiters[k].frameId == s.waiters[k].frameId
      && (t.waiters[k] != s.waiters[k] ==>
            s.waiters[k].future.Pending? && Completes(s.waiters[k], e, k, t.waiters[k].future))
  {
  }

  /** So over a whole run the first completion is the only one. */
  lemma {:induction false} OutcomeIsFinal(es: seq<Event>, n: nat, k: nat)
    requires AllAdmissible(es) && n <= |es| && k < |Run(es[..n]).waiters|
    requires !Run(es[..n]).waiters[k].future.Pending?
    ensures k < |Run(es).waiters| && Run(es).waiters[k] == Run(es[..n]).waiters[k]
    decreases |es| - n
  {
    hide NoneStranded, Admissible, After;
    if n == |es| {
      assert es[..n] == es;
    } else {
      PrefixAdmissible(es, n);
      NoStrandedWaiter(es[..n]);
      assert Admissible(Run(es[..n]), es[n]);
      CompletedOnce(Run(es[..n]), es[n], k);
      assert es[..n + 1][..n] == es[..n];
      OutcomeIsFinal(es, n + 1, k);
    }
  }

  lemma PrefixAdmissible(es: seq<Event>, n: nat)
    requires AllAdmissible(es) && n <= |es|
    ensures AllAdmissible(es[..n])
  {
    forall i | 0 <= i < n ensures Admissible(Run(es[..n][..i]), es[..n][i]) {
      assert es[..n][..i] == es[..i];
    }
  }

  /** A late, repeated or unknown ack changes nothing, and every send on a closed connection
      fails. */
  lemma LateAckIsIgnored(s: State, ack: Ack, id: string)
    ensures ack.frameId !in s.acks ==> Deliver(s, ack) == s
    ensures Deliver(Deliver(s, ack), ack) == Deliver(s, ack)
    ensures NoneStranded(s) && s.closed ==> Dispatch(s, id) == s && Deliver(s, ack) == s
  {
    if s.closed && s.acks == map[] {
      assert s.acks - {id} == map[];
    }
  }

  // ---- what does happen to a waiter ----

  /** In every reachable state a pending waiter is completed with the ack that carries its frame
      id, with a cancellation by its timeout, with an error by the close; the first two drop
      its registration and touch nothing else, the close leaves nobody waiting. */
  lemma EveryWaiterIsAnswered(es: seq<Event>, k: nat, ack: Ack)
    requires AllAdmissible(es) && k < |Run(es).waiters| && Run(es).waiters[k].future.Pending?
    ensures var s, id := Run(es), Run(es).waiters[k].frameId;
      && !s.closed
      && (ack.frameId == id ==>
            After(s, EAck(ack)) == s.(waiters := s.waiters[k := Waiter(id, Result(ack))], acks := s.acks - {id}))
      && After(s, ETimeOut(k)) == s.(waiters := s.waiters[k := Waiter(id, Cancelled)], acks := s.acks - {id})
      && After(s, EClose).waiters[k] == Waiter(id, Error)
  {
    hide Run, FailAll;
    NoStrandedWaiter(es);
    var s := Run(es);
    assert s.acks[s.waiters[k].frameId] == k;
    assert k in s.acks.Values;
    FailsAt(s.waiters, s.acks.Values, k);
  }

  lemma FailsAt(waiters: seq<Waiter>, which: set<nat>, k: nat)
    requires k < |waiters| && k in which && waiters[k].future.Pending?
    ensures FailAll(waiters, which)[k] == Waiter(waiters[k].frameId, Error)
  {
  }

  /** A dispatch on an open connection with room in its queue waits under its id, its command
      at the back; on any other it leaves no waiter and no command. The pump takes the front. */
  lemma DispatchWaits(s: State, id: string)
    ensures var t := After(s, EDispatch(id));
      if !s.closed && |s.queue| < 64 then
        && t.waiters == s.waiters + [Waiter(id, Pending)] && t.queue == s.queue + [Command(id)]
        && t.acks == s.acks[id := |s.waiters|] && !t.closed
      else
        t.waiters == s.waiters && t.queue == s.queue && t.acks == s.acks - {id} && t.closed == s.closed
    ensures s.queue != [] ==> After(s, EPump) == s.(queue := s.queue[1..])
  {
  }

  /** Everything that entered the queue, in order. */
  function Entered(es: seq<Event>): seq<Item> {
    if es == [] then []
    else
      var init, s := es[..|es| - 1], Run(es[..|es| - 1]);
      Entered(init) +
        match es[|es| - 1]
        case EDispatch(id) => if !s.closed && |s.queue| < 64 then [Command(id)] else []
        case EClose => if !s.closed && |s.queue| < 64 then [Sentinel] else []
        case _ => []
  }

  /** Everything the pump took, in order. */
  function Taken(es: seq<Event>): seq<Item> {
    if es == [] then []
    else
      var init, s := es[..|es| - 1], Run(es[..|es| - 1]);
      Taken(init) + if es[|es| - 1].EPump? && s.queue != [] then [s.queue[0]] else []
  }

  /** Commands are delivered in the order they were dispatched, none lost and none twice. */
  lemma {:induction false} QueueIsInOrder(es: seq<Event>)
    ensures Taken(es) + Run(es).queue == Entered(es)
  {
    hide Resolved, FailAll;
    if es != [] {
      var init, e, s := es[..|es| - 1], es[|es| - 1], Run(es[..|es| - 1]);
      QueueIsInOrder(init);
      match e
      case EDispatch(id) =>
        assert CanSend(s) ==> Taken(init) + (s.queue + [Command(id)]) == Entered(init) + [Command(id)];
      case EAck(ack) => AckKeepsQueue(s, ack);
      case ETimeOut(k) => TimeOutKeepsQueue(s, k);
      case EPump => if s.queue != [] { assert s.queue == [s.queue[0]] + s.queue[1..]; }
      case EClose =>
        assert !s.closed ==> Taken(init) + (s.queue + [Sentinel]) == Entered(init) + [Sentinel];
    }
  }

  lemma AckKeepsQueue(s: State, ack: Ack)
    ensures Deliver(s, ack).queue == s.queue
  {
  }

  lemma TimeOutKeepsQueue(s: State, k: nat)
    ensures TimeOut(s, k).queue == s.queue
  {
  }
}
