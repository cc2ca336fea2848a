/** Delivery status of the user messages of one session (task_message_status.py). Each
    conditional UPDATE is one step on the rows. */
module MessageStatus {
  import opened Options
  import opened Text

  datatype Status = Pending | Dispatching | Received | Running | Completed | Failed | Cancelled

  /** The transition table. */
  function Targets(from: Status): set<Status> {
    match from
    case Pending => {Dispatching, Failed, Cancelled}
    case Dispatching => {Received, Failed}
    case Received => {Running, Completed, Failed, Cancelled}
    case Running => {Completed, Failed, Cancelled}
    case Failed => {Pending, Completed}
    case Cancelled => {Pending}
    case Completed => {}
  }

  predicate InFlight(s: Status) { s in {Pending, Dispatching, Received, Running} }

  // ---- events of the node ----

  /** The payload fields the code reads, absent ones as "" or 0. */
  datatype Payload = Payload(
    message_id: string, messageId: string, status: string, error: string,
    delivery_attempt: int, deliveryAttempt: int)

  function Or(a: string, b: string): string { if a != "" then a else b }

  function MessageId(p: Payload): string { Strip(Or(p.message_id, p.messageId)) }

  /** `int(a or b or 1) or 1` */
  function Attempt(p: Payload): int {
    if p.delivery_attempt != 0 then p.delivery_attempt
    else if p.deliveryAttempt != 0 then p.deliveryAttempt
    else 1
  }

  function ResolveTarget(eventType: string, p: Payload): Option<Status> {
    var status := Strip(p.status);
    if eventType == "input_status" then
      if status == "received" then Some(Received)
      else if status == "failed" then Some(Failed)
      else if status == "cancelled" then Some(Cancelled)
      else None
    else if eventType == "agent_turn_started" then Some(Running)
    else if eventType == "agent_turn_completed" then
      if status == "cancelled" then Some(Cancelled)
      else if status == "failed" then Some(Failed)
      else Some(Completed)
    else None
  }

  // ---- the rows ----

  datatype Row = Row(status: Status, attempt: int, reason: Option<string>)

  type Rows = map<string, Row>

  function Moved(row: Row, to: Status, reason: Option<string>): Row {
    Row(to, row.attempt, if reason.Some? then reason else row.reason)
  }

  function NonEmpty(s: string): Option<string> { if s == "" then None else Some(s) }

  /** The event names a message and a target, and the row admits the move. */
  predicate Accepts(rows: Rows, eventType: string, p: Payload) {
    var id, to := MessageId(p), ResolveTarget(eventType, p);
    && id != "" && to.Some? && id in rows
    && rows[id].attempt == Attempt(p) && to.value in Targets(rows[id].status)
  }

  function AfterEvent(rows: Rows, eventType: string, p: Payload): Rows {
    if Accepts(rows, eventType, p) then
      var id, to := MessageId(p), ResolveTarget(eventType, p).value;
      rows[id := Moved(rows[id], to, if to == Failed then NonEmpty(p.error) else None)]
    else rows
  }

  /** An error frame names a message, unless its id is missing or empty. */
  predicate Names(id: Option<string>) { id.Some? && id.value != "" }

  /** The messages an error frame closes out: the in-flight ones, or just the named one. */
  function Doomed(rows: Rows, id: Option<string>): set<string> {
    set m | m in rows && InFlight(rows[m].status) && (Names(id) ==> id.value == m)
  }

  /** `fail_inflight_messages`: one named message, or all of the session. */
  function AfterError(rows: Rows, reason: string, id: Option<string>): Rows {
    map m | m in rows :: if m in Doomed(rows, id) then Moved(rows[m], Failed, NonEmpty(reason)) else rows[m]
  }

  /** One line of the status history; `from` is missing for session-wide close-outs. */
  datatype Entry = Entry(message: string, from: Option<Status>, to: Status, attempt: int)

  /** A history line of a close-out; the session-wide statement does not see what it replaced. */
  predicate Records(rows: Rows, id: Option<string>, line: Entry) {
    && line.message in rows && line.to == Failed && line.attempt == rows[line.message].attempt
    && line.from == if Names(id) then Some(rows[line.message].status) else None
  }

  /** One line for each message closed out, and no other. */
  ghost predicate Tells(lines: seq<Entry>, rows: Rows, id: Option<string>) {
    && |lines| == |Doomed(rows, id)|
    && (forall k :: 0 <= k < |lines| ==> lines[k].message in Doomed(rows, id) && Records(rows, id, lines[k]))
    && (forall j, k :: 0 <= j < k < |lines| ==> lines[j].message != lines[k].message)
  }

  class MessageTable {
    var rows: Rows
    var history: seq<Entry>

    constructor (rows: Rows)
      ensures this.rows == rows && history == []
    {
      this.rows, history := rows, [];
    }

    method RecordMessageStatus(eventType: string, p: Payload)
      modifies this
      ensures rows == AfterEvent(old(rows), eventType, p)
      ensures history == old(history) +
        if Accepts(old(rows), eventType, p) then
          [Entry(MessageId(p), Some(old(rows)[MessageId(p)].status), rows[MessageId(p)].status, Attempt(p))]
        else []
    {
      var id := MessageId(p);
      if id == "" {
        return;
      }
      var to := ResolveTarget(eventType, p);
      if to.None? {
        return;
      }
      var attempt := Attempt(p);
      if id in rows && rows[id].attempt == attempt && to.value in Targets(rows[id].status) {
        var reason := if to.value == Failed then NonEmpty(p.error) else None;
        var before := rows[id].status;
        rows := rows[id := Moved(rows[id], to.value, reason)];
        history := history + [Entry(id, Some(before), to.value, attempt)];
      }
    }

    /** Closes out in-flight messages in one UPDATE, then writes one history line for each row
        changed, and no other. */
    method FailInflight(reason: string, id: Option<string>)
      modifies this
      ensures rows == AfterError(old(rows), reason, id)
      ensures old(history) <= history
      ensures Tells(history[|old(history)|..], old(rows), id)
    {
      hide InFlight, Moved, Tells;
      ghost var told := history;
      var before, hit := rows, Doomed(rows, id);
      rows := map m | m in before :: if m in hit then Moved(before[m], Failed, NonEmpty(reason)) else before[m];
      var lines := Lines(before, id);
      history := history + lines;
      assert history[|told|..] == lines;
    }

    /** One line for each message the UPDATE returned, in any order. */
    static method Lines(rows: Rows, id: Option<string>) returns (lines: seq<Entry>)
      ensures Tells(lines, rows, id)
    {
      hide InFlight;
      var hit := Doomed(rows, id);
      lines := [];
      var todo := hit;
      while todo != {}
        invariant todo <= hit && |lines| == |hit| - |todo|
        invariant forall k :: 0 <= k < |lines| ==> lines[k].message in hit - todo && Records(rows, id, lines[k])
        invariant forall j, k :: 0 <= j < k < |lines| ==> lines[j].message != lines[k].message
        decreases |todo|
      {
        var m :| m in todo;
        lines := lines + [Entry(m, if Names(id) then Some(rows[m].status) else None, Failed, rows[m].attempt)];
        todo := todo - {m};
      }
    }
  }

  // ---- runs ----

  /** `Gateway`: the data service moves a message, or creates one, on its own copy of the
      table. */
  datatype Event =
    | Node(eventType: string, p: Payload)
    | Error(reason: string, id: Option<string>)
    | Gateway(message: string, row: Row)

  function After(rows: Rows, e: Event): Rows {
    match e
    case Node(eventType, p) => AfterEvent(rows, eventType, p)
    case Error(reason, id) => AfterError(rows, reason, id)
    case Gateway(m, row) => rows[m := row]
  }

  function Run(rows: Rows, es: seq<Event>): Rows {
    if es == [] then rows else After(Run(rows, es[..|es| - 1]), es[|es| - 1])
  }

  /** The gateway moves along the table, and new messages start as pending. */
  predicate Lawful(rows: Rows, e: Event) {
    e.Gateway? ==>
      if e.message in rows then e.row.status in Targets(rows[e.message].status) else e.row.status == Pending
  }

  /** A retry (the move back to pending) raises the attempt; nothing else changes it. */
  predicate RaisesOnRetry(rows: Rows, e: Event) {
    e.Gateway? && e.message in rows ==>
      if e.row.status == Pending then e.row.attempt > rows[e.message].attempt
      else e.row.attempt == rows[e.message].attempt
  }

  /** Each event of the run keeps to the table. */
  predicate AllLawful(rows: Rows, es: seq<Event>) {
    if es == [] then true
    else
      var init := es[..|es| - 1];
      AllLawful(rows, init) && Lawful(Run(rows, init), es[|init|])
  }

  predicate AllRaise(rows: Rows, es: seq<Event>) {
    if es == [] then true
    else
      var init := es[..|es| - 1];
      AllRaise(rows, init) && RaisesOnRetry(Run(rows, init), es[|init|])
  }

  /** Every write is an edge of the table, by whomever it is made; so a completed message
      stays completed, and no row disappears. */
  lemma EveryWriteIsAnEdge(rows: Rows, e: Event, m: string)
    requires Lawful(rows, e) && m in rows
    ensures m in After(rows, e)
    ensures After(rows, e)[m].status != rows[m].status ==> After(rows, e)[m].status in Targets(rows[m].status)
  {
    hide MessageId, ResolveTarget, Attempt;
  }

  lemma {:induction false} CompletedIsAbsorbing(rows: Rows, es: seq<Event>, m: string)
    requires AllLawful(rows, es) && m in rows && rows[m].status == Completed
    ensures m in Run(rows, es) && Run(rows, es)[m].status == Completed
  {
    hide After;
    if es != [] {
      var init, e := es[..|es| - 1], es[|es| - 1];
      CompletedIsAbsorbing(rows, init, m);
      EveryWriteIsAnEdge(Run(rows, init), e, m);
    }
  }

  // ---- node writes between gateway moves ----

  /** How many node writes a message can still take. */
  function Budget(s: Status): nat {
    match s
    case Dispatching => 4
    case Received => 3
    case Running => 2
    case Pending => 2
    case Failed => 1
    case _ => 0
  }

  lemma NodeWriteSpendsBudget(rows: Rows, e: Event, m: string)
    requires !e.Gateway? && m in rows
    ensures m in After(rows, e)
    ensures After(rows, e)[m].status == rows[m].status || Budget(After(rows, e)[m].status) < Budget(rows[m].status)
  {
    hide MessageId, Attempt, Strip;
  }

  /** How often the status of `m` is written. */
  function Writes(rows: Rows, es: seq<Event>, m: string): nat {
    if es == [] then 0
    else
      var before, after := Run(rows, es[..|es| - 1]), Run(rows, es);
      Writes(rows, es[..|es| - 1], m) +
        (if m in before && m in after && before[m].status != after[m].status then 1 else 0)
  }

  /** Between gateway moves at most four node writes succeed, from whatever status. */
  lemma {:induction false} AtMostFourWrites(rows: Rows, es: seq<Event>, m: string)
    requires m in rows && forall i :: 0 <= i < |es| ==> !es[i].Gateway?
    ensures m in Run(rows, es)
    ensures Writes(rows, es, m) + Budget(Run(rows, es)[m].status) <= Budget(rows[m].status) <= 4
  {
    hide After;
    if es != [] {
      var init := es[..|es| - 1];
      AtMostFourWrites(rows, init, m);
      NodeWriteSpendsBudget(Run(rows, init), es[|es| - 1], m);
    }
  }

  // ---- redelivery ----

  /** Progress within one delivery attempt: every edge except a retry goes up. */
  function Rank(s: Status): nat {
    match s
    case Pending => 0
    case Dispatching => 1
    case Received => 2
    case Running => 3
    case Failed => 4
    case _ => 5
  }

  lemma EdgesRiseExceptRetry(from: Status, to: Status)
    requires to in Targets(from) && to != Pending
    ensures Rank(from) < Rank(to)
  {
  }

  /** The row has moved past the point an accepted event brought it to. */
  predicate Past(row: Row, attempt: int, to: Status) {
    row.attempt > attempt || (row.attempt == attempt && Rank(row.status) >= Rank(to))
  }

  lemma StepStaysPast(rows: Rows, e: Event, m: string, attempt: int, to: Status)
    requires Lawful(rows, e) && RaisesOnRetry(rows, e) && m in rows && Past(rows[m], attempt, to)
    ensures m in After(rows, e) && Past(After(rows, e)[m], attempt, to)
  {
    hide MessageId, Attempt, Strip;
    EveryWriteIsAnEdge(rows, e, m);
    var t := After(rows, e)[m];
    if t.status != rows[m].status && t.status != Pending {
      EdgesRiseExceptRetry(rows[m].status, t.status);
    }
  }

  lemma {:induction false} AcceptedIsPast(rows: Rows, es: seq<Event>, i: nat)
    requires i < |es| && es[i].Node? && AllLawful(rows, es) && AllRaise(rows, es)
    requires Accepts(Run(rows, es[..i]), es[i].eventType, es[i].p)
    ensures var id := MessageId(es[i].p);
      && id in Run(rows, es)
      && Past(Run(rows, es)[id], Attempt(es[i].p), ResolveTarget(es[i].eventType, es[i].p).value)
    decreases |es|
  {
    hide MessageId, Attempt, ResolveTarget, Lawful, RaisesOnRetry, Past;
    var init, e := es[..|es| - 1], es[|es| - 1];
    var id, to := MessageId(es[i].p), ResolveTarget(es[i].eventType, es[i].p).value;
    if i == |init| {
      AcceptedMoves(Run(rows, init), e);
    } else {
      assert init[..i] == es[..i] && init[i] == es[i];
      AcceptedIsPast(rows, init, i);
      StepStaysPast(Run(rows, init), e, id, Attempt(es[i].p), to);
    }
  }

  lemma AcceptedMoves(rows: Rows, e: Event)
    requires e.Node? && Accepts(rows, e.eventType, e.p)
    ensures MessageId(e.p) in After(rows, e)
    ensures Past(After(rows, e)[MessageId(e.p)], Attempt(e.p), ResolveTarget(e.eventType, e.p).value)
  {
    hide MessageId, Attempt, ResolveTarget;
  }

  /** A node event that was accepted once never takes effect again, however often and however
      late it is redelivered, whatever other events and gateway moves come between. */
  lemma {:induction false} RedeliveryIsInert(rows: Rows, es: seq<Event>, i: nat)
    requires i < |es| && es[i].Node? && AllLawful(rows, es) && AllRaise(rows, es)
    requires Accepts(Run(rows, es[..i]), es[i].eventType, es[i].p)
    ensures !Accepts(Run(rows, es), es[i].eventType, es[i].p)
    ensures After(Run(rows, es), es[i]) == Run(rows, es)
  {
    hide MessageId, Attempt, Run, Lawful, RaisesOnRetry;
    AcceptedIsPast(rows, es, i);
    var row := Run(rows, es)[MessageId(es[i].p)];
    var to := ResolveTarget(es[i].eventType, es[i].p).value;
    if to in Targets(row.status) { EdgesRiseExceptRetry(row.status, to); }
  }

  // ---- redelivered error frames ----

  /** An error frame has an effect exactly when a message it addresses is in flight. */
  lemma ErrorTakesEffectIff(rows: Rows, reason: string, id: Option<string>)
    ensures After(rows, Error(reason, id)) != rows <==> Doomed(rows, id) != {}
  {
    hide Names;
    if m :| m in Doomed(rows, id) {
      assert After(rows, Error(reason, id))[m].status == Failed != rows[m].status;
    } else {
      assert After(rows, Error(reason, id)) == rows;
    }
  }

  /** Only the gateway brings a message into flight, or into the table. */
  lemma OnlyGatewayLaunches(rows: Rows, e: Event, m: string)
    requires Lawful(rows, e) && m in After(rows, e) && InFlight(After(rows, e)[m].status)
    requires !(m in rows && InFlight(rows[m].status))
    ensures e.Gateway? && e.message == m
  {
    hide MessageId, Attempt, Strip;
    if m in rows { EveryWriteIsAnEdge(rows, e, m); }
  }

  /** A message in flight after a stretch of a run, and not before it, was moved by the gateway
      in that stretch. */
  lemma {:induction false} LaunchedByGateway(rows: Rows, es: seq<Event>, n: nat, m: string)
    requires n <= |es| && AllLawful(rows, es)
    requires m in Run(rows, es) && InFlight(Run(rows, es)[m].status)
    requires !(m in Run(rows, es[..n]) && InFlight(Run(rows, es[..n])[m].status))
    ensures exists j :: n <= j < |es| && es[j].Gateway? && es[j].message == m
    decreases |es|
  {
    hide After, Lawful, InFlight;
    assert es[..|es|] == es;
    if n < |es| {
      var init, e := es[..|es| - 1], es[|es| - 1];
      assert init[..n] == es[..n];
      var before := Run(rows, init);
      if m in before && InFlight(before[m].status) {
        LaunchedByGateway(rows, init, n, m);
        var j :| n <= j < |init| && init[j].Gateway? && init[j].message == m;
        assert es[j] == init[j];
      } else {
        OnlyGatewayLaunches(before, e, m);
      }
    }
  }

  /** An error frame carries no attempt. Delivered a second time it fails exactly the addressed
      messages that are in flight by then, and each of these was moved by the gateway since. */
  lemma ErrorRedelivery(rows: Rows, es: seq<Event>, i: nat, m: string)
    requires i < |es| && es[i].Error? && AllLawful(rows, es) && m in Run(rows, es)
    ensures var s := Run(rows, es);
      && (After(s, es[i])[m] != s[m] <==> m in Doomed(s, es[i].id))
      && (After(s, es[i])[m] != s[m] ==> exists j :: i < j < |es| && es[j].Gateway? && es[j].message == m)
  {
    hide Run, Names;
    var s := Run(rows, es);
    if m in Doomed(s, es[i].id) {
      assert es[..i + 1][..i] == es[..i];
      ErrorGrounds(Run(rows, es[..i]), es[i].reason, es[i].id, m);
      RunSnoc(rows, es, i);
      LaunchedByGateway(rows, es, i + 1, m);
    }
  }

  lemma ErrorGrounds(rows: Rows, reason: string, id: Option<string>, m: string)
    requires Names(id) ==> id.value == m
    ensures var t := After(rows, Error(reason, id)); m in t ==> !InFlight(t[m].status)
  {
  }

  lemma RunSnoc(rows: Rows, es: seq<Event>, i: nat)
    requires i < |es|
    ensures Run(rows, es[..i + 1]) == After(Run(rows, es[..i]), es[i])
  {
    assert es[..i + 1][..i] == es[..i];
  }

  /** So between gateway moves a redelivered error frame changes nothing. */
  lemma ErrorRedeliveryIsInert(rows: Rows, es: seq<Event>, i: nat)
    requires i < |es| && es[i].Error? && AllLawful(rows, es)
    requires forall j :: i < j < |es| ==> !es[j].Gateway?
    ensures After(Run(rows, es), es[i]) == Run(rows, es)
  {
    hide Run, Names;
    var s := Run(rows, es);
    forall m | m in s ensures After(s, es[i])[m] == s[m] {
      ErrorRedelivery(rows, es, i, m);
    }
  }

  /** And a retry in between lets it fail the new attempt: the frame is applied, the gateway
      retries with a raised attempt, and the same frame is applied again. */
  lemma RetryIsFailedAgain(rows: Rows, m: string, reason: string)
    requires m in rows && m != "" && InFlight(rows[m].status)
    ensures var error, retry := Error(reason, Some(m)), Gateway(m, Row(Pending, rows[m].attempt + 1, None));
      var retried := After(After(rows, error), retry);
      && Lawful(After(rows, error), retry) && RaisesOnRetry(After(rows, error), retry)
      && retried[m].status == Pending && After(retried, error)[m].status == Failed
  {
  }

  // ---- what an event means ----

  /** The status each kind of event leads to, and the kinds and words that lead nowhere. */
  lemma EventLeadsTo(eventType: string, p: Payload)
    ensures var word, to := Strip(p.status), ResolveTarget(eventType, p);
      && (to == Some(Received) <==> eventType == "input_status" && word == "received")
      && (to == Some(Running) <==> eventType == "agent_turn_started")
      && (to == Some(Completed) <==> eventType == "agent_turn_completed" && word != "failed" && word != "cancelled")
      && (to == Some(Failed) <==>
            word == "failed" && (eventType == "input_status" || eventType == "agent_turn_completed"))
      && (to == Some(Cancelled) <==>
            word == "cancelled" && (eventType == "input_status" || eventType == "agent_turn_completed"))
      && to != Some(Pending) && to != Some(Dispatching)
  {
    hide Strip;
  }

  /** The moves a node event can make, status by status. */
  lemma NodeMoves(from: Status, to: Status)
    requires to != Pending
    ensures to in Targets(from) <==>
      || (from == Pending && (to == Dispatching || to == Failed || to == Cancelled))
      || (from == Dispatching && (to == Received || to == Failed))
      || (from == Received && (to == Running || to == Completed || to == Failed || to == Cancelled))
      || (from == Running && (to == Completed || to == Failed || to == Cancelled))
      || (from == Failed && to == Completed)
  {
  }

  /** An event takes effect exactly when it names a message, under either key, whose row has the
      event's attempt - the first non-zero one given, else 1 - and allows the move. Then that
      row has the new status, and a failure's error if it has one; nothing else changes. */
  lemma EventTakesEffect(rows: Rows, eventType: string, p: Payload, id: string, other: string)
    requires id == Strip(if p.message_id != "" then p.message_id else p.messageId) && other != id
    ensures var t, to := After(rows, Node(eventType, p)), ResolveTarget(eventType, p);
      var attempt :=
        if p.delivery_attempt != 0 then p.delivery_attempt else if p.deliveryAttempt != 0 then p.deliveryAttempt else 1;
      && (other in t <==> other in rows) && (other in rows ==> t[other] == rows[other])
      && if && id != "" && to.Some? && id in rows && rows[id].attempt == attempt
            && to.value in Targets(rows[id].status)
         then
           && id in t && t[id].status == to.value && t[id].attempt == attempt
           && t[id].reason == if to.value == Failed && p.error != "" then Some(p.error) else rows[id].reason
         else t == rows
  {
    hide Strip, ResolveTarget, Targets;
  }

  /** An error frame fails the messages in flight - the named one, or all when the id is missing
      or empty - with its reason if it has one, and no other. */
  lemma ErrorFails(rows: Rows, reason: string, id: Option<string>, m: string)
    requires m in rows
    ensures var t, row := After(rows, Error(reason, id)), rows[m];
      var hit := && (row.status == Pending || row.status == Dispatching || row.status == Received
                     || row.status == Running)
                 && (id == None || id == Some("") || id == Some(m));
      && t.Keys == rows.Keys
      && t[m] == if hit then Row(Failed, row.attempt, if reason != "" then Some(reason) else row.reason) else row
  {
  }
}
