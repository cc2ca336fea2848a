/** A host terminal that outlives a browser (terminal_bridge.py): its replay buffer, its one
    browser and its detach clock. */
module HostTerminals {
  import opened Bytes
  import opened Options

  const REPLAY_LIMIT := 256 * 1024
  const SUBSCRIBER_QUEUE := 256

  // ---- the replay buffer ----

  function Total(chunks: seq<seq<Byte>>): nat {
    if chunks == [] then 0 else |chunks[0]| + Total(chunks[1..])
  }

  /** Drops chunks from the front until the rest fits. */
  function Trim(chunks: seq<seq<Byte>>, limit: nat): seq<seq<Byte>> {
    if Total(chunks) > limit && chunks != [] then Trim(chunks[1..], limit) else chunks
  }

  lemma {:induction false} TotalSnoc(chunks: seq<seq<Byte>>, c: seq<Byte>)
    ensures Total(chunks + [c]) == Total(chunks) + |c|
  {
    if chunks == [] {
      assert chunks + [c] == [c];
    } else {
      assert (chunks + [c])[1..] == chunks[1..] + [c];
      TotalSnoc(chunks[1..], c);
    }
  }

  /** Trimming early or late gives the same: the longest suffix within the limit. */
  lemma {:induction false} TrimOfTrim(chunks: seq<seq<Byte>>, c: seq<Byte>, limit: nat)
    ensures Trim(Trim(chunks, limit) + [c], limit) == Trim(chunks + [c], limit)
  {
    if Total(chunks) > limit && chunks != [] {
      TotalSnoc(chunks, c);
      assert (chunks + [c])[1..] == chunks[1..] + [c];
      TrimOfTrim(chunks[1..], c, limit);
    }
  }

  predicate IsSuffix(s: seq<seq<Byte>>, chunks: seq<seq<Byte>>) {
    |s| <= |chunks| && s == chunks[|chunks| - |s|..]
  }

  /** What Trim is: a suffix that fits, and no longer suffix fits. */
  lemma {:induction false} TrimIsLongestSuffix(chunks: seq<seq<Byte>>, limit: nat)
    ensures IsSuffix(Trim(chunks, limit), chunks) && Total(Trim(chunks, limit)) <= limit
    ensures forall s :: IsSuffix(s, chunks) && Total(s) <= limit ==> |s| <= |Trim(chunks, limit)|
  {
    if Total(chunks) > limit && chunks != [] {
      var tail := chunks[1..];
      TrimIsLongestSuffix(tail, limit);
      forall s | IsSuffix(s, chunks) && Total(s) <= limit ensures IsSuffix(s, tail) {
        WholeSuffix(s, chunks);
        assert s == chunks[|chunks| - |s|..] == tail[|tail| - |s|..];
      }
    }
  }

  lemma WholeSuffix(s: seq<seq<Byte>>, chunks: seq<seq<Byte>>)
    requires IsSuffix(s, chunks)
    ensures |s| == |chunks| ==> Total(s) == Total(chunks)
  {
    assert |s| == |chunks| ==> s == chunks;
  }

  // ---- one terminal ----

  /** What a browser has still to take; None ends the stream. */
  type Queue = seq<Option<seq<Byte>>>

  /** `put_nowait` with QueueFull suppressed. */
  function Sent(queues: seq<Queue>, q: nat, item: Option<seq<Byte>>): seq<Queue> {
    if q < |queues| && |queues[q]| < SUBSCRIBER_QUEUE then queues[q := queues[q] + [item]] else queues
  }

  /** The browser that was attached, if any, is told that its stream is over. */
  function Dismissed(queues: seq<Queue>, subscriber: Option<nat>): seq<Queue> {
    if subscriber.Some? then Sent(queues, subscriber.value, None) else queues
  }

  /** A queue handed to a browser is known by its number. */
  class PersistentTerminal {
    const nodeId: string
    const terminalId: string
    var replay: seq<seq<Byte>>
    var replaySize: nat
    var subscriber: Option<nat>
    var queues: seq<Queue>
    var detachedSince: Option<real>
    var closed: bool
    var sessionClosed: bool
    /** Every chunk the session has emitted. */
    ghost var emitted: seq<seq<Byte>>

    /** `closed`: closed here, or reported gone by the node. */
    predicate Gone()
      reads this
    {
      closed || sessionClosed
    }

    /** The buffer is exactly the longest suffix of the output within the limit; an open
        terminal has a browser exactly when no detach clock runs. */
    ghost predicate Valid()
      reads this
    {
      && replay == Trim(emitted, 262144) && replaySize == Total(replay)
      && (subscriber.Some? ==> subscriber.value < |queues| && detachedSince.None?)
      && (!Gone() ==> (subscriber.Some? <==> detachedSince.None?))
    }

    constructor (nodeId: string, terminalId: string, now: real)
      ensures Valid() && !Gone() && subscriber == None && detachedSince == Some(now) && emitted == []
      ensures this.nodeId == nodeId && this.terminalId == terminalId
    {
      this.nodeId, this.terminalId := nodeId, terminalId;
      replay, replaySize, subscriber, queues := [], 0, None, [];
      detachedSince, closed, sessionClosed, emitted := Some(now), false, false, [];
    }

    method Put(q: nat, item: Option<seq<Byte>>)
      requires q < |queues|
      modifies this`queues
      ensures queues == Sent(old(queues), q, item)
    {
      if |queues[q]| < SUBSCRIBER_QUEUE {
        queues := queues[q := queues[q] + [item]];
      }
    }

    /** The browser with queue `q` takes the next item. */
    method Get(q: nat) returns (item: Option<seq<Byte>>)
      requires Valid() && q < |queues| && queues[q] != []
      modifies this`queues
      ensures Valid() && item == old(queues)[q][0] && queues == old(queues)[q := old(queues)[q][1..]]
    {
      item := queues[q][0];
      queues := queues[q := queues[q][1..]];
    }

    /** Attaches one browser, replacing an older one, which is dismissed; None when the terminal
        is gone. The new queue starts with the replay as far as it fits: all of it exactly when
        it has at most 256 chunks, else without its newest chunks. */
    method Subscribe() returns (q: Option<nat>)
      requires Valid()
      modifies this`queues, this`subscriber, this`detachedSince
      ensures Valid() && emitted == old(emitted) && Gone() == old(Gone())
      ensures q.None? <==> old(Gone())
      ensures q.None? ==>
        subscriber == old(subscriber) && detachedSince == old(detachedSince) && queues == old(queues)
      ensures q.Some? ==>
        && subscriber == q && q.value == |old(queues)| && detachedSince == None
        && queues == Dismissed(old(queues), old(subscriber)) + [Items(Take(replay, SUBSCRIBER_QUEUE))]
        && (queues[q.value] == Items(replay) <==> |replay| <= SUBSCRIBER_QUEUE)
    {
      if Gone() {
        return None;
      }
      if subscriber.Some? {
        Put(subscriber.value, None);
      }
      ghost var others := queues;
      var n := |queues|;
      queues := queues + [[]];
      assert Items(Take(replay[..0], SUBSCRIBER_QUEUE)) == [];
      var i := 0;
      while i < |replay|
        invariant 0 <= i <= |replay|
        invariant queues == others + [Items(Take(replay[..i], SUBSCRIBER_QUEUE))]
      {
        assert replay[..i + 1] == replay[..i] + [replay[i]];
        ItemsSnoc(replay[..i], replay[i]);
        Put(n, Some(replay[i]));
        i := i + 1;
      }
      assert replay[..i] == replay;
      TakenIsCompleteIff(replay);
      subscriber := Some(n);
      detachedSince := None;
      return Some(n);
    }

    method Unsubscribe(q: nat, now: real)
      requires Valid()
      modifies this`subscriber, this`detachedSince
      ensures Valid()
      ensures if old(subscriber) == Some(q) then subscriber == None && detachedSince == Some(now)
        else subscriber == old(subscriber) && detachedSince == old(detachedSince)
    {
      if subscriber == Some(q) {
        subscriber := None;
        detachedSince := Some(now);
      }
    }

    /** One chunk from the session: into the replay, and to the browser; a browser whose
        queue is full is dropped, which is a detach. */
    method Emit(chunk: seq<Byte>, now: real)
      requires Valid()
      modifies this
      ensures Valid() && emitted == old(emitted) + [chunk] && Gone() == old(Gone())
      ensures old(subscriber).None? ==>
        subscriber == None && queues == old(queues) && detachedSince == old(detachedSince)
      ensures old(subscriber).Some? ==>
        var q := old(subscriber).value;
        if |old(queues)[q]| < SUBSCRIBER_QUEUE then
          && subscriber == Some(q) && detachedSince == old(detachedSince)
          && queues == old(queues)[q := old(queues)[q] + [Some(chunk)]]
        else
          && subscriber == None && detachedSince == Some(now) && queues == old(queues)[q := [None]]
    {
      AppendReplay(chunk);
      if subscriber.Some? {
        var q := subscriber.value;
        if |queues[q]| >= SUBSCRIBER_QUEUE {
          queues := queues[q := [None]];
          Unsubscribe(q, now);
        } else {
          Put(q, Some(chunk));
        }
      }
    }

    method AppendReplay(chunk: seq<Byte>)
      requires Valid()
      modifies this`replay, this`replaySize, this`emitted
      ensures Valid() && emitted == old(emitted) + [chunk]
    {
      ghost var before := emitted;
      TrimOfTrim(before, chunk, REPLAY_LIMIT);
      TotalSnoc(replay, chunk);
      emitted := emitted + [chunk];
      replay := replay + [chunk];
      replaySize := replaySize + |chunk|;
      while replaySize > REPLAY_LIMIT && replay != []
        invariant replaySize == Total(replay) && emitted == before + [chunk]
        invariant Trim(replay, REPLAY_LIMIT) == Trim(emitted, REPLAY_LIMIT)
        decreases |replay|
      {
        replaySize := replaySize - |replay[0]|;
        replay := replay[1..];
      }
    }

    /** The session reported the shell's exit, or was released. */
    method SessionEnds()
      requires Valid()
      modifies this`sessionClosed
      ensures Valid() && Gone()
    {
      sessionClosed := true;
    }

    /** The end of the pump task: a dropped connection leaves the terminal open for a
        reattach, an ended session closes it. */
    method PumpEnds()
      requires Valid()
      modifies this`closed, this`subscriber, this`queues
      ensures Valid() && Gone() == old(Gone())
      ensures if sessionClosed then
          closed && subscriber == None && queues == Dismissed(old(queues), old(subscriber))
        else closed == old(closed) && subscriber == old(subscriber) && queues == old(queues)
    {
      if sessionClosed {
        closed := true;
        var q := subscriber;
        subscriber := None;
        if q.Some? {
          Put(q.value, None);
        }
      }
    }

    method Close()
      requires Valid()
      modifies this`closed, this`sessionClosed, this`subscriber, this`queues
      ensures Valid() && Gone() && closed
      ensures if old(closed) then
          subscriber == old(subscriber) && sessionClosed == old(sessionClosed) && queues == old(queues)
        else
          subscriber == None && sessionClosed && queues == Dismissed(old(queues), old(subscriber))
    {
      if closed {
        return;
      }
      closed := true;
      if subscriber.Some? {
        Put(subscriber.value, None);
        subscriber := None;
      }
      sessionClosed := true;
    }
  }

  /** Chunks as queue items. */
  function Items(chunks: seq<seq<Byte>>): seq<Option<seq<Byte>>> {
    seq(|chunks|, i requires 0 <= i < |chunks| => Some(chunks[i]))
  }

  lemma ItemsSnoc(chunks: seq<seq<Byte>>, c: seq<Byte>)
    ensures Items(Take(chunks + [c], SUBSCRIBER_QUEUE)) ==
      if |chunks| < SUBSCRIBER_QUEUE then Items(Take(chunks, SUBSCRIBER_QUEUE)) + [Some(c)]
      else Items(Take(chunks, SUBSCRIBER_QUEUE))
  {
  }

  /** A browser that is dismissed with room in its queue is told the end, behind everything it
      has still to take; nobody else is told anything. */
  lemma DismissedIsTold(queues: seq<Queue>, q: nat, other: nat)
    requires q < |queues| && |queues[q]| < 256 && other < |queues| && other != q
    ensures var told := Dismissed(queues, Some(q));
      |told| == |queues| && told[q] == queues[q] + [None] && told[other] == queues[other]
    ensures Dismissed(queues, None) == queues
  {
  }

  lemma TakenIsCompleteIff(replay: seq<seq<Byte>>)
    ensures Items(Take(replay, SUBSCRIBER_QUEUE)) == Items(replay) <==> |replay| <= SUBSCRIBER_QUEUE
  {
    if |replay| > SUBSCRIBER_QUEUE {
      assert |Items(Take(replay, SUBSCRIBER_QUEUE))| == SUBSCRIBER_QUEUE;
    }
  }

  lemma {:induction false} TotalOfSingles(chunks: seq<seq<Byte>>)
    requires forall i :: 0 <= i < |chunks| ==> |chunks[i]| == 1
    ensures Total(chunks) == |chunks|
  {
    if chunks != [] { TotalOfSingles(chunks[1..]); }
  }

  /** A reachable terminal whose replay has more chunks than a new browser's queue takes: after
      257 single bytes, the browser that attaches misses the last one. */
  method OverfullReplay(nodeId: string, terminalId: string, b: Byte, now: real)
      returns (t: PersistentTerminal, q: nat)
    ensures t.Valid() && !t.Gone() && |t.replay| == SUBSCRIBER_QUEUE + 1
    ensures t.subscriber == Some(q) && q < |t.queues| && t.queues[q] == Items(t.replay[..SUBSCRIBER_QUEUE])
  {
    t := new PersistentTerminal(nodeId, terminalId, now);
    var i := 0;
    while i < SUBSCRIBER_QUEUE + 1
      invariant 0 <= i <= SUBSCRIBER_QUEUE + 1
      invariant fresh(t) && t.Valid() && !t.Gone() && t.subscriber == None
      invariant |t.emitted| == i && forall k :: 0 <= k < i ==> |t.emitted[k]| == 1
    {
      t.Emit([b], now);
      i := i + 1;
    }
    TotalOfSingles(t.emitted);
    assert t.replay == t.emitted;
    var s := t.Subscribe();
    q := s.value;
  }
}
