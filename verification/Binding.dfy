/** `NodeStore.bind_session_to_node` (store.py): a two-attempt upsert run by any number of
    racing callers. A row-locked transaction and an insert are one step each. */
module Binding {
  import opened Options
  import opened Text

  /** The fields every bind writes. */
  datatype Always = Always(
    nodeId: string, projectId: string, taskId: string, editorId: string, editorSessionId: string,
    appliedRevision: int, effectiveRevision: int)

  /** The fields an empty value leaves as they are. */
  datatype Kept = Kept(provider: string, model: string, mode: string, status: string)

  datatype Row = Row(always: Always, kept: Kept)

  /** A request as the caller hands it in. */
  datatype Request = Request(sessionId: string, always: Always, kept: Kept)

  function Trimmed(r: Request): Request {
    Request(
      Strip(r.sessionId),
      Always(Strip(r.always.nodeId), Strip(r.always.projectId), Strip(r.always.taskId), Strip(r.always.editorId),
             Strip(r.always.editorSessionId), r.always.appliedRevision, r.always.effectiveRevision),
      Kept(Strip(r.kept.provider), Strip(r.kept.model), Strip(r.kept.mode), Strip(r.kept.status)))
  }

  /** Without a session id and a node id the call raises ValueError before touching the store. */
  predicate Valid(r: Request) { Strip(r.sessionId) != "" && Strip(r.always.nodeId) != "" }

  function Choose(new_: string, old_: string): string { if new_ == "" then old_ else new_ }

  function Merge(row: Row, r: Request): Row {
    Row(r.always, Kept(
      Choose(r.kept.provider, row.kept.provider), Choose(r.kept.model, row.kept.model),
      Choose(r.kept.mode, row.kept.mode), Choose(r.kept.status, row.kept.status)))
  }

  // ---- the machine ----

  /** Where one call stands: before its transaction or its insert in the given attempt,
      returned, or raised (the second IntegrityError, or the refused arguments). */
  datatype Pc = Transaction(attempt: nat) | Insert(attempt: nat) | Returned | Raised

  datatype Caller = Caller(request: Request, pc: Pc, steps: nat)

  /** The table row of one session, the callers racing for it, and those that have written it,
      in the order of their commits. */
  datatype State = State(row: Option<Row>, callers: seq<Caller>, commits: seq<nat>)

  function Begin(r: Request): Caller {
    Caller(Trimmed(r), if Valid(r) then Transaction(0) else Raised, 0)
  }

  function Start(row: Option<Row>, requests: seq<Request>): (s: State)
    ensures |s.callers| == |requests|
  {
    State(row, seq(|requests|, i requires 0 <= i < |requests| => Begin(requests[i])), [])
  }

  predicate Running(c: Caller) { c.pc.Transaction? || c.pc.Insert? }

  /** Caller `i` takes its next atomic step. */
  function Step(s: State, i: nat): (t: State)
    requires i < |s.callers|
    ensures |t.callers| == |s.callers|
  {
    var c := s.callers[i];
    match c.pc
    case Transaction(attempt) =>
      if s.row.Some? then
        Move(s, i, Returned).(row := Some(Merge(s.row.value, c.request)), commits := s.commits + [i])
      else Move(s, i, Insert(attempt))
    case Insert(attempt) =>
      if s.row.None? then
        Move(s, i, Returned).(row := Some(Row(c.request.always, c.request.kept)), commits := s.commits + [i])
      else Move(s, i, if attempt == 0 then Transaction(1) else Raised)
    case _ => s
  }

  function Move(s: State, i: nat, pc: Pc): State
    requires i < |s.callers|
  {
    s.(callers := s.callers[i := s.callers[i].(pc := pc, steps := s.callers[i].steps + 1)])
  }

  /** A turn of the schedule: caller `i` moves, or somebody deletes the row. */
  datatype Turn = Bind(i: nat) | Unbind

  function Act(s: State, turn: Turn): (t: State)
    ensures |t.callers| == |s.callers|
  {
    match turn
    case Bind(i) => if i < |s.callers| then Step(s, i) else s
    case Unbind => s.(row := None)
  }

  function Run(s: State, schedule: seq<Turn>): (t: State)
    ensures |t.callers| == |s.callers|
  {
    if schedule == [] then s else Act(Run(s, schedule[..|schedule| - 1]), schedule[|schedule| - 1])
  }

  predicate Undeleted(schedule: seq<Turn>) {
    forall k :: 0 <= k < |schedule| ==> schedule[k].Bind?
  }

  // ---- invariants of a race without deletions ----

  /** A second attempt is only ever made with the row in place, so it always returns. */
  predicate CallerSound(s: State, c: Caller) {
    match c.pc
    case Transaction(attempt) => (attempt == 0 && c.steps == 0) || (attempt == 1 && c.steps == 2 && s.row.Some?)
    case Insert(attempt) => attempt == 0 && c.steps == 1
    case Returned => 1 <= c.steps <= 3 && s.row.Some?
    case Raised => c.steps == 0
  }

  predicate Within(commits: seq<nat>, n: nat) {
    forall a :: 0 <= a < |commits| ==> commits[a] < n
  }

  /** A caller has committed exactly when it has returned, and only once; the row carries the
      always-written fields of the last one. */
  ghost predicate CommitsSound(s: State) {
    && Within(s.commits, |s.callers|)
    && (forall i :: 0 <= i < |s.callers| ==> (s.callers[i].pc == Returned <==> i in s.commits))
    && (forall a, b :: 0 <= a < b < |s.commits| ==> s.commits[a] != s.commits[b])
    && (s.commits != [] ==>
          s.row.Some? && s.row.value.always == s.callers[s.commits[|s.commits| - 1]].request.always)
  }

  ghost predicate Sound(s: State) {
    && (forall i :: 0 <= i < |s.callers| ==> CallerSound(s, s.callers[i]))
    && CommitsSound(s)
  }

  lemma StepKeepsSound(s: State, i: nat)
    requires Sound(s) && i < |s.callers|
    ensures Sound(Step(s, i))
  {
    hide Merge;
    var t := Step(s, i);
    assert CallerSound(s, s.callers[i]);
    if t.commits != s.commits {
      assert i !in s.commits && t.commits == s.commits + [i];
      forall j | 0 <= j < |t.callers| ensures t.callers[j].pc == Returned <==> j in t.commits {
        assert j in t.commits <==> j in s.commits || j == i;
      }
      MergeWritesAlways(s, i);
    }
  }

  lemma MergeWritesAlways(s: State, i: nat)
    requires i < |s.callers|
    ensures forall row: Row :: Merge(row, s.callers[i].request).always == s.callers[i].request.always
  {
  }

  lemma {:induction false} RunKeepsSound(row: Option<Row>, requests: seq<Request>, schedule: seq<Turn>)
    requires Undeleted(schedule)
    ensures Sound(Run(Start(row, requests), schedule))
    ensures |Run(Start(row, requests), schedule).callers| == |requests|
  {
    hide Sound, Start, Step;
    if schedule == [] {
      StartIsSound(row, requests);
    } else {
      var init, i := schedule[..|schedule| - 1], schedule[|schedule| - 1].i;
      RunKeepsSound(row, requests, init);
      var before := Run(Start(row, requests), init);
      if i < |before.callers| {
        StepKeepsSound(before, i);
        StepKeepsCallers(before, i);
      }
    }
  }

  lemma StartIsSound(row: Option<Row>, requests: seq<Request>)
    ensures Sound(Start(row, requests)) && |Start(row, requests).callers| == |requests|
  {
  }

  lemma StepKeepsCallers(s: State, i: nat)
    requires i < |s.callers|
    ensures |Step(s, i).callers| == |s.callers|
    ensures forall j :: 0 <= j < |s.callers| ==> Step(s, i).callers[j].request == s.callers[j].request
  {
  }

  /** Only refused arguments make a call raise, and no call needs more than two attempts of
      at most two steps, the last of which commits: three steps in all. */
  lemma RacingBindersSucceed(row: Option<Row>, requests: seq<Request>, schedule: seq<Turn>, i: nat)
    requires i < |requests| && Undeleted(schedule)
    ensures var c := Run(Start(row, requests), schedule).callers[i];
      && c.steps <= 3
      && (c.pc == Raised <==> Strip(requests[i].sessionId) == "" || Strip(requests[i].always.nodeId) == "")
      && (c.steps == 3 ==> c.pc == Returned)
  {
    hide Run, Step, Start;
    RunKeepsSound(row, requests, schedule);
    RefusedStayRefused(row, requests, schedule, i);
    assert CallerSound(Run(Start(row, requests), schedule), Run(Start(row, requests), schedule).callers[i]);
  }

  lemma {:induction false} RefusedStayRefused(row: Option<Row>, requests: seq<Request>, schedule: seq<Turn>, i: nat)
    requires i < |requests| && Undeleted(schedule)
    ensures var s := Run(Start(row, requests), schedule);
      && |s.callers| == |requests|
      && s.callers[i].request == Trimmed(requests[i])
      && (s.callers[i].pc == Raised <==> !Valid(requests[i]))
  {
    hide Trimmed, Valid, Merge;
    if schedule != [] {
      var init := schedule[..|schedule| - 1];
      RefusedStayRefused(row, requests, init, i);
      RunKeepsSound(row, requests, init);
      var before := Run(Start(row, requests), init);
      assert CallerSound(before, before.callers[i]);
    }
  }

  /** How many steps are left in all. */
  function Left(c: Caller): nat {
    match c.pc
    case Transaction(attempt) => if attempt == 0 then 3 else 1
    case Insert(_) => 2
    case _ => 0
  }

  function TotalLeft(cs: seq<Caller>): nat {
    if cs == [] then 0 else TotalLeft(cs[..|cs| - 1]) + Left(cs[|cs| - 1])
  }

  lemma {:induction false} TotalLeftUpdate(cs: seq<Caller>, i: nat, c: Caller)
    requires i < |cs|
    ensures TotalLeft(cs[i := c]) == TotalLeft(cs) - Left(cs[i]) + Left(c)
  {
    var n := |cs| - 1;
    if i == n {
      assert cs[i := c][..n] == cs[..n];
    } else {
      assert cs[i := c][..n] == cs[..n][i := c];
      TotalLeftUpdate(cs[..n], i, c);
    }
  }

  /** Every step of a running caller brings the whole race closer to its end, so any schedule
      that keeps moving running callers ends with all of them returned. */
  lemma EveryStepMakesProgress(s: State, i: nat)
    requires Sound(s) && i < |s.callers| && Running(s.callers[i])
    ensures TotalLeft(Step(s, i).callers) < TotalLeft(s.callers)
  {
    assert CallerSound(s, s.callers[i]);
    TotalLeftUpdate(s.callers, i, Step(s, i).callers[i]);
    assert Step(s, i).callers == s.callers[i := Step(s, i).callers[i]];
  }

  // ---- the row ----

  /** Non-empty stays non-empty. */
  predicate KeepsFilled(before: string, after: string) { before != "" ==> after != "" }

  predicate RowGrows(before: Option<Row>, after: Option<Row>) {
    before.Some? ==>
      && after.Some?
      && KeepsFilled(before.value.kept.provider, after.value.kept.provider)
      && KeepsFilled(before.value.kept.model, after.value.kept.model)
      && KeepsFilled(before.value.kept.mode, after.value.kept.mode)
      && KeepsFilled(before.value.kept.status, after.value.kept.status)
  }

  /** Over any stretch of a run the row, once there, stays, and the fields that may be left
      empty in a request never go from filled to empty. */
  lemma {:induction false} RowOnlyGrows(s: State, schedule: seq<Turn>)
    requires Undeleted(schedule)
    ensures RowGrows(s.row, Run(s, schedule).row)
  {
    if schedule != [] {
      var init, i := schedule[..|schedule| - 1], schedule[|schedule| - 1].i;
      RowOnlyGrows(s, init);
      var before := Run(s, init);
      if i < |before.callers| { assert RowGrows(before.row, Step(before, i).row); }
    }
  }

  /** The last non-empty value, or what was there to begin with. */
  function LastFilled(initial: string, values: seq<string>): string {
    if values == [] then initial
    else if values[|values| - 1] != "" then values[|values| - 1]
    else LastFilled(initial, values[..|values| - 1])
  }

  /** One field of the committed requests as their callers handed it in, stripped, in commit
      order. */
  function Written(requests: seq<Request>, commits: seq<nat>, field: Kept -> string): seq<string>
    requires Within(commits, |requests|)
  {
    seq(|commits|, a requires 0 <= a < |commits| => Strip(field(requests[commits[a]].kept)))
  }

  function KeptOf(row: Option<Row>): Kept {
    if row.Some? then row.value.kept else Kept("", "", "", "")
  }

  /** Each of the four fields holds, at every moment, the last non-empty value committed for
      it, or its value before the race. */
  ghost predicate KeptSound(s: State, row: Option<Row>, requests: seq<Request>) {
    && Within(s.commits, |requests|)
    && var now, was := KeptOf(s.row), KeptOf(row);
    && now.provider == LastFilled(was.provider, Written(requests, s.commits, (k: Kept) => k.provider))
    && now.model == LastFilled(was.model, Written(requests, s.commits, (k: Kept) => k.model))
    && now.mode == LastFilled(was.mode, Written(requests, s.commits, (k: Kept) => k.mode))
    && now.status == LastFilled(was.status, Written(requests, s.commits, (k: Kept) => k.status))
  }

  lemma WrittenSnoc(requests: seq<Request>, commits: seq<nat>, i: nat, field: Kept -> string, initial: string)
    requires i < |requests| && Within(commits, |requests|)
    ensures Within(commits + [i], |requests|)
    ensures LastFilled(initial, Written(requests, commits + [i], field)) ==
      Choose(Strip(field(requests[i].kept)), LastFilled(initial, Written(requests, commits, field)))
  {
    hide Strip;
    assert Written(requests, commits + [i], field)[..|commits|] == Written(requests, commits, field);
  }

  lemma {:induction false} LastFilledWins(row: Option<Row>, requests: seq<Request>, schedule: seq<Turn>)
    requires Undeleted(schedule)
    ensures KeptSound(Run(Start(row, requests), schedule), row, requests)
  {
    hide Trimmed, Valid, LastFilled, Written, KeptSound;
    if schedule == [] {
      NothingWritten(row, requests);
    } else {
      var init, i := schedule[..|schedule| - 1], schedule[|schedule| - 1].i;
      LastFilledWins(row, requests, init);
      var before := Run(Start(row, requests), init);
      if i < |before.callers| {
        RefusedStayRefused(row, requests, init, i);
        StepKeepsKept(before, i, row, requests);
      }
    }
  }

  lemma NothingWritten(row: Option<Row>, requests: seq<Request>)
    ensures KeptSound(Start(row, requests), row, requests)
  {
  }

  lemma StepKeepsKept(s: State, i: nat, row: Option<Row>, requests: seq<Request>)
    requires KeptSound(s, row, requests) && i < |s.callers| == |requests|
    requires s.callers[i].request == Trimmed(requests[i])
    ensures KeptSound(Step(s, i), row, requests)
  {
    hide Strip, LastFilled, Written;
    if Step(s, i).commits == s.commits + [i] {
      WrittenSnoc(requests, s.commits, i, (k: Kept) => k.provider, KeptOf(row).provider);
      WrittenSnoc(requests, s.commits, i, (k: Kept) => k.model, KeptOf(row).model);
      WrittenSnoc(requests, s.commits, i, (k: Kept) => k.mode, KeptOf(row).mode);
      WrittenSnoc(requests, s.commits, i, (k: Kept) => k.status, KeptOf(row).status);
    }
  }

  /** The strings of the request stripped, each in its own field, and its revisions. */
  predicate Carries(row: Always, request: Always) {
    && row.nodeId == Strip(request.nodeId) && row.projectId == Strip(request.projectId)
    && row.taskId == Strip(request.taskId) && row.editorId == Strip(request.editorId)
    && row.editorSessionId == Strip(request.editorSessionId)
    && row.appliedRevision == request.appliedRevision && row.effectiveRevision == request.effectiveRevision
  }

  /** When no call is under way any more, exactly the valid ones have committed, each once;
      the row carries the always-written fields of the last of them, and is untouched when
      there was none. */
  lemma FinishedRace(row: Option<Row>, requests: seq<Request>, schedule: seq<Turn>)
    requires Undeleted(schedule)
    requires forall i :: 0 <= i < |requests| ==> !Running(Run(Start(row, requests), schedule).callers[i])
    ensures var s := Run(Start(row, requests), schedule);
      && (forall i :: 0 <= i < |requests| ==> (i in s.commits <==>
            Strip(requests[i].sessionId) != "" && Strip(requests[i].always.nodeId) != ""))
      && (forall a, b :: 0 <= a < b < |s.commits| ==> s.commits[a] != s.commits[b])
      && (s.commits == [] ==> s.row == row)
      && (s.commits != [] ==>
            var last := s.commits[|s.commits| - 1];
            last < |requests| && s.row.Some? && Carries(s.row.value.always, requests[last].always))
  {
    hide Run, Step, Start, Strip;
    var s := Run(Start(row, requests), schedule);
    RunKeepsSound(row, requests, schedule);
    UncommittedIsUntouched(row, requests, schedule);
    forall i | 0 <= i < |requests|
      ensures s.callers[i].request == Trimmed(requests[i]) && (s.callers[i].pc == Returned <==> Valid(requests[i]))
    {
      RefusedStayRefused(row, requests, schedule, i);
      assert !Running(s.callers[i]);
    }
  }

  lemma {:induction false} UncommittedIsUntouched(row: Option<Row>, requests: seq<Request>, schedule: seq<Turn>)
    requires Undeleted(schedule)
    ensures var s := Run(Start(row, requests), schedule);
      s.commits == [] ==> s.row == row
  {
    hide Trimmed, Valid, Merge;
    if schedule != [] { UncommittedIsUntouched(row, requests, schedule[..|schedule| - 1]); }
  }

  // ---- races with deletions ----

  /** Whether the row is there just before turn `n`. */
  predicate Present(s: State, schedule: seq<Turn>, n: nat)
    requires n <= |schedule|
  {
    Run(s, schedule[..n]).row.Some?
  }

  /** The turns at which caller `i` moves. */
  function Moves(schedule: seq<Turn>, i: nat): seq<nat> {
    if schedule == [] then []
    else
      var n := |schedule| - 1;
      Moves(schedule[..n], i) + if schedule[n] == Bind(i) then [n] else []
  }

  lemma {:induction false} MovesAreTurns(schedule: seq<Turn>, i: nat)
    ensures forall n :: 0 <= n < |schedule| ==> (n in Moves(schedule, i) <==> schedule[n] == Bind(i))
    ensures forall a :: 0 <= a < |Moves(schedule, i)| ==> Moves(schedule, i)[a] < |schedule|
    ensures forall a, b :: 0 <= a < b < |Moves(schedule, i)| ==> Moves(schedule, i)[a] < Moves(schedule, i)[b]
  {
    if schedule != [] { MovesAreTurns(schedule[..|schedule| - 1], i); }
  }

  /** What caller `i` finds at each of its moves: the row is there, or not. */
  function Found(s: State, schedule: seq<Turn>, i: nat): seq<bool> {
    if schedule == [] then []
    else
      var n := |schedule| - 1;
      Found(s, schedule[..n], i) + if schedule[n] == Bind(i) then [Run(s, schedule[..n]).row.Some?] else []
  }

  lemma {:induction false} FoundAtMoves(s: State, schedule: seq<Turn>, i: nat)
    ensures |Found(s, schedule, i)| == |Moves(schedule, i)|
    ensures forall a :: 0 <= a < |Moves(schedule, i)| ==>
      Moves(schedule, i)[a] < |schedule| && Found(s, schedule, i)[a] == Present(s, schedule, Moves(schedule, i)[a])
  {
    if schedule != [] {
      var init := schedule[..|schedule| - 1];
      FoundAtMoves(s, init, i);
      forall n | 0 <= n <= |init| ensures schedule[..n] == init[..n] {
      }
    }
  }

  /** Where a valid call stands is settled by what it found. */
  function PcAfter(found: seq<bool>): Pc {
    if found == [] then Transaction(0)
    else if found[0] then Returned
    else if |found| == 1 then Insert(0)
    else if !found[1] then Returned
    else if |found| == 2 then Transaction(1)
    else if found[2] then Returned
    else if |found| == 3 then Insert(1)
    else if !found[3] then Returned
    else Raised
  }

  lemma {:induction false} PcIsSettled(row: Option<Row>, requests: seq<Request>, schedule: seq<Turn>, i: nat)
    requires i < |requests| && Valid(requests[i])
    ensures Run(Start(row, requests), schedule).callers[i].pc == PcAfter(Found(Start(row, requests), schedule, i))
  {
    hide Merge, Trimmed, Valid;
    if schedule != [] {
      var init, turn := schedule[..|schedule| - 1], schedule[|schedule| - 1];
      PcIsSettled(row, requests, init, i);
      StepMovesOne(Run(Start(row, requests), init), turn, i);
    }
  }

  lemma StepMovesOne(s: State, turn: Turn, i: nat)
    requires i < |s.callers|
    ensures turn != Bind(i) ==> Act(s, turn).callers[i] == s.callers[i]
  {
    hide Merge;
  }

  /** Turn `n` commits. */
  predicate CommitsAt(s: State, schedule: seq<Turn>, n: nat)
    requires n < |schedule|
  {
    Act(Run(s, schedule[..n]), schedule[n]).commits != Run(s, schedule[..n]).commits
  }

  /** The last turn in `lo..hi` to touch the row deletes it. */
  ghost predicate DeletedBetween(s: State, schedule: seq<Turn>, lo: nat, hi: nat)
    requires hi <= |schedule|
  {
    exists d :: lo <= d < hi && schedule[d].Unbind? && forall n :: d < n < hi ==> !CommitsAt(s, schedule, n)
  }

  /** The last turn in `lo..hi` to touch the row commits. */
  ghost predicate CommittedBetween(s: State, schedule: seq<Turn>, lo: nat, hi: nat)
    requires hi <= |schedule|
  {
    exists c :: lo <= c < hi && CommitsAt(s, schedule, c) && forall n :: c < n < hi ==> !schedule[n].Unbind?
  }

  lemma TurnOnRow(s: State, schedule: seq<Turn>, n: nat)
    requires n < |schedule|
    ensures schedule[n].Unbind? ==> !Present(s, schedule, n + 1) && !CommitsAt(s, schedule, n)
    ensures CommitsAt(s, schedule, n) ==> Present(s, schedule, n + 1)
    ensures !schedule[n].Unbind? && !CommitsAt(s, schedule, n) ==>
      (Present(s, schedule, n + 1) <==> Present(s, schedule, n))
  {
    hide Merge;
    assert schedule[..n + 1][..n] == schedule[..n];
    var before := Run(s, schedule[..n]);
    if schedule[n].Bind? && schedule[n].i < |before.callers| { CommitOrNot(before, schedule[n].i); }
  }

  lemma CommitOrNot(s: State, i: nat)
    requires i < |s.callers|
    ensures Step(s, i).commits == s.commits ==> Step(s, i).row == s.row
    ensures Step(s, i).commits != s.commits ==> Step(s, i).row.Some?
  {
    hide Merge;
    assert |s.commits + [i]| == |s.commits| + 1;
  }

  lemma {:induction false} AbsentIffDeleted(s: State, schedule: seq<Turn>, lo: nat, hi: nat)
    requires lo <= hi <= |schedule| && Present(s, schedule, lo)
    ensures !Present(s, schedule, hi) <==> DeletedBetween(s, schedule, lo, hi)
    decreases hi
  {
    hide Present, CommitsAt;
    if lo < hi {
      AbsentIffDeleted(s, schedule, lo, hi - 1);
      TurnOnRow(s, schedule, hi - 1);
    }
  }

  lemma {:induction false} PresentIffCommitted(s: State, schedule: seq<Turn>, lo: nat, hi: nat)
    requires lo <= hi <= |schedule| && !Present(s, schedule, lo)
    ensures Present(s, schedule, hi) <==> CommittedBetween(s, schedule, lo, hi)
    decreases hi
  {
    hide Present, CommitsAt;
    if lo < hi {
      PresentIffCommitted(s, schedule, lo, hi - 1);
      TurnOnRow(s, schedule, hi - 1);
    }
  }

  /** With deletions anywhere in the race, a valid call raises if and only if it found no row,
      lost its insert, the row was deleted before its second lookup - and not written again -
      and it was written again before its second insert. */
  lemma RaisesIff(row: Option<Row>, requests: seq<Request>, schedule: seq<Turn>, i: nat)
    requires i < |requests| && Valid(requests[i])
    ensures var s, m := Start(row, requests), Moves(schedule, i);
      && (forall a :: 0 <= a < |m| ==> m[a] < |schedule|)
      && (Run(s, schedule).callers[i].pc == Raised <==>
            && |m| >= 4
            && !Present(s, schedule, m[0]) && Present(s, schedule, m[1])
            && DeletedBetween(s, schedule, m[1], m[2])
            && CommittedBetween(s, schedule, m[2], m[3]))
  {
    hide Present, DeletedBetween, CommittedBetween, Start, Run, Moves, Found, Valid;
    var s, m := Start(row, requests), Moves(schedule, i);
    PcIsSettled(row, requests, schedule, i);
    FoundAtMoves(s, schedule, i);
    MovesAreTurns(schedule, i);
    if |m| >= 4 {
      if Present(s, schedule, m[1]) { AbsentIffDeleted(s, schedule, m[1], m[2]); }
      if !Present(s, schedule, m[2]) { PresentIffCommitted(s, schedule, m[2], m[3]); }
      if Present(s, schedule, m[1]) && !DeletedBetween(s, schedule, m[1], m[2]) {
        assert Present(s, schedule, m[2]);
      }
    }
  }

  /** So deletions that all fall outside the gap between its lost insert and its second lookup
      never make a valid call raise. */
  lemma HarmlessDeletions(row: Option<Row>, requests: seq<Request>, schedule: seq<Turn>, i: nat)
    requires i < |requests| && Valid(requests[i])
    requires var m := Moves(schedule, i);
      |m| >= 3 ==> forall d :: m[1] <= d < m[2] && d < |schedule| ==> !schedule[d].Unbind?
    ensures Run(Start(row, requests), schedule).callers[i].pc != Raised
  {
    hide Start, Run, Moves, Valid;
    RaisesIff(row, requests, schedule, i);
  }

  /** And the gap is there: the first caller reads no row and loses the insert to the second;
      the row is deleted; its retry reads no row again and loses the insert to the third. */
  lemma DeletionCanRaise(a: Request, b: Request, c: Request)
    requires Valid(a) && Valid(b) && Valid(c)
    ensures var schedule := [Bind(0), Bind(1), Bind(1), Bind(0), Unbind, Bind(0), Bind(2), Bind(2), Bind(0)];
      Run(Start(None, [a, b, c]), schedule).callers[0].pc == Raised
  {
    hide Run, Start, Step, Valid;
    var s := Start(None, [a, b, c]);
    var first, second := [Bind(0), Bind(1), Bind(1), Bind(0)], [Bind(0), Bind(2), Bind(2), Bind(0)];
    assert [Bind(0), Bind(1), Bind(1), Bind(0), Unbind, Bind(0), Bind(2), Bind(2), Bind(0)]
        == first + [Unbind] + second;
    RunsThrough(s, first + [Unbind], second);
    RunSnoc(s, first, Unbind);
    RunsFour(s, Bind(0), Bind(1), Bind(1), Bind(0));
    var lost := Step(Step(Step(Step(s, 0), 1), 1), 0);
    LosesTwice(a, b, c);
    RunsFour(Act(lost, Unbind), Bind(0), Bind(2), Bind(2), Bind(0));
  }

  lemma LosesTwice(a: Request, b: Request, c: Request)
    requires Valid(a) && Valid(b) && Valid(c)
    ensures var lost := Step(Step(Step(Step(Start(None, [a, b, c]), 0), 1), 1), 0);
      Step(Step(Step(Step(Act(lost, Unbind), 0), 2), 2), 0).callers[0].pc == Raised
  {
    hide Trimmed, Valid, Merge;
    var lost := Step(Step(Step(Step(Start(None, [a, b, c]), 0), 1), 1), 0);
    assert lost.callers[0].pc == Transaction(1) && lost.callers[2].pc == Transaction(0);
    var again := Step(Step(Step(Act(lost, Unbind), 0), 2), 2);
    assert again.row.Some? && again.callers[0].pc == Insert(1);
  }

  lemma RunSnoc(s: State, schedule: seq<Turn>, turn: Turn)
    ensures Run(s, schedule + [turn]) == Act(Run(s, schedule), turn)
  {
    assert (schedule + [turn])[..|schedule|] == schedule;
  }

  lemma {:induction false} RunsThrough(s: State, first: seq<Turn>, second: seq<Turn>)
    ensures Run(s, first + second) == Run(Run(s, first), second)
    decreases |second|
  {
    if second == [] {
      assert first + second == first;
    } else {
      assert (first + second)[..|first + second| - 1] == first + second[..|second| - 1];
      RunsThrough(s, first, second[..|second| - 1]);
    }
  }

  lemma RunsFour(s: State, a: Turn, b: Turn, c: Turn, d: Turn)
    ensures Run(s, [a, b, c, d]) == Act(Act(Act(Act(s, a), b), c), d)
  {
    hide Act;
    RunSnoc(s, [], a);
    RunSnoc(s, [a], b);
    RunSnoc(s, [a, b], c);
    RunSnoc(s, [a, b, c], d);
    assert [] + [a] == [a] && [a] + [b] == [a, b] && [a, b] + [c] == [a, b, c] && [a, b, c] + [d] == [a, b, c, d];
  }
}
