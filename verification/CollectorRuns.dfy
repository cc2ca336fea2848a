/** What the collector promises over a whole command, however the PTY cuts the stream. */
module CollectorRuns {
  import opened Bytes
  import opened Options
  import opened MarkerText
  import opened CollectorSpec
  import opened CollectorProofs

  // ---- the wrapper echo ----

  /** The stream behind the echo of the hidden wrapper, if the stream starts with it. */
  function Body(echo: seq<Byte>, fed: seq<Byte>): seq<Byte> {
    if echo <= fed then fed[|echo|..] else fed
  }

  /** Enough has arrived to tell whether the stream starts with the echo. */
  predicate Decided(echo: seq<Byte>, fed: seq<Byte>) {
    echo <= fed || !(fed <= echo)
  }

  lemma PrefixesCompare(a: seq<Byte>, b: seq<Byte>, x: seq<Byte>)
    requires a <= x && b <= x
    ensures a <= b || b <= a
  {
    if |a| <= |b| {
      assert a == x[..|b|][..|a|];
    } else {
      assert b == x[..|a|][..|b|];
    }
  }

  lemma BodyGrows(echo: seq<Byte>, fed: seq<Byte>, c: seq<Byte>)
    requires Decided(echo, fed)
    ensures Decided(echo, fed + c)
    ensures Body(echo, fed + c) == Body(echo, fed) + c
  {
    assert fed <= fed + c;
    if echo <= fed {
      assert (fed + c)[..|echo|] == fed[..|echo|];
    } else if echo <= fed + c {
      PrefixesCompare(echo, fed, fed + c);
    } else if fed + c <= echo {
      PrefixesCompare(fed, fed + c, echo);
    }
  }

  // ---- the bounded copy ----

  /** The collected chunks are the first `cap` bytes of the visible output. */
  predicate Captured(s: State, visible: seq<Byte>) {
    && Flatten(s.chunks) == Take(visible, s.cap)
    && s.size == |Take(visible, s.cap)|
    && (s.truncated <==> |visible| > s.cap)
  }

  lemma AbsorbCaptures(s: State, visible: seq<Byte>, data: seq<Byte>)
    requires Captured(s, visible)
    ensures Captured(Absorb(s, data), visible + data)
  {
    if data == [] {
      assert visible + data == visible;
    } else if s.size < s.cap {
      assert Take(visible, s.cap) == visible;
      FlattenSnoc(s.chunks, if |data| > s.cap - s.size then data[..s.cap - s.size] else data);
    }
  }

  // ---- one scan ----

  /** No result marker so far, and markers properly spaced. */
  ghost predicate Quiet(text: seq<Byte>, m: seq<Byte>) {
    NoResult(text, m) && Spaced(text, m)
  }

  /** No marker that is cut off, or followed by whitespace only, starts before `n`. */
  ghost predicate Covered(text: seq<Byte>, m: seq<Byte>, n: nat) {
    forall i :: OpenAt(text, m, i) ==> n <= i
  }

  /** An occurrence that is open, or new, in an extension was open in the text it extends. */
  lemma OpenBefore(text: seq<Byte>, more: seq<Byte>, m: seq<Byte>, i: int)
    requires 0 <= i < |text|
    requires OpenAt(text + more, m, i) ||
      (OccursAt(text + more, m, i) && (i + |m| <= |text| ==> AllSpace(text[i + |m|..])))
    ensures OpenAt(text, m, i)
  {
    var all := text + more;
    if i + |m| <= |text| {
      OccursInPrefix(text, more, m, i);
      assert all[i + |m|..] == text[i + |m|..] + more;
      SpacePrefix(text[i + |m|..], more);
    } else if OccursAt(all, m, i) {
      assert text[i..] == all[i..i + |m|][..|text| - i];
    } else {
      assert text[i..] == all[i..][..|text| - i];
    }
  }

  lemma SpacePrefix(t: seq<Byte>, u: seq<Byte>)
    ensures AllSpace(t + u) ==> AllSpace(t)
  {
    if AllSpace(t + u) {
      forall k | 0 <= k < |t| ensures IsSpace(t[k]) { assert (t + u)[k] == t[k]; }
    }
  }

  lemma OpenInSuffix(a: seq<Byte>, b: seq<Byte>, m: seq<Byte>, i: int)
    requires i >= |a| && OpenAt(a + b, m, i)
    ensures OpenAt(b, m, i - |a|)
  {
    assert (a + b)[i..] == b[i - |a|..];
    OccursInSuffix(a, b, m, i - |a|);
    if i + |m| <= |a + b| {
      assert (a + b)[i + |m|..] == b[i - |a| + |m|..];
    }
  }

  /** While there is no result, a scan releases and keeps exactly its input. */
  lemma ScanWithholds(m: seq<Byte>, out: seq<Byte>, data: seq<Byte>)
    requires m != [] && Quiet(out + data, m)
    ensures FirstResult(data, m, 0) == -1 && Spaced(data, m)
    ensures Withhold(data, m).visible + Withhold(data, m).pending == data
    ensures KeptShape(Withhold(data, m).pending, m)
  {
    NoResultSuffix(out, data, m);
    SpacedSuffix(out, data, m);
    if FirstResult(data, m, 0) >= 0 { FirstResultIsResult(data, m, 0); }
    if Collides(data, m) { CollisionIsNotSpaced(data, m); }
    WithholdConservesIff(data, m);
    WithholdShape(data, m);
  }

  /** Every marker of the whole text that is cut off, or followed by whitespace only, stays
      among the kept bytes. */
  lemma ScanCovers(m: seq<Byte>, out: seq<Byte>, text: seq<Byte>, data: seq<Byte>)
    requires GoodMarker(m) && text <= out + data && |out| <= |text| && Covered(text, m, |out|)
    requires Spaced(data, m)
    ensures Covered(out + data, m, |out| + |Withhold(data, m).visible|)
  {
    hide Withhold, Spaced;
    forall i | OpenAt(out + data, m, i) ensures |out| + |Withhold(data, m).visible| <= i {
      if i < |out| {
        var more := (out + data)[|text|..];
        assert out + data == text + more;
        OpenBefore(text, more, m, i);
      } else {
        OpenInSuffix(out, data, m, i);
        WithholdCovers(data, m, i - |out|);
      }
    }
  }

  /** The first result of the whole text is found, and nothing of it was released. */
  lemma ScanFinds(m: seq<Byte>, out: seq<Byte>, text: seq<Byte>, data: seq<Byte>, r: nat)
    requires GoodMarker(m) && text <= out + data && |out| <= |text| && Covered(text, m, |out|)
    requires ResultAt(out + data, m, r) && forall i :: 0 <= i < r ==> !ResultAt(out + data, m, i)
    requires Spaced((out + data)[..r + |m|], m)
    requires r + |m| <= |text| ==> AllSpace(text[r + |m|..])
    ensures |out| <= r && FirstResult(data, m, 0) == r - |out|
  {
    var all := out + data;
    if r < |out| {
      var more := all[|text|..];
      assert all == text + more;
      OpenBefore(text, more, m, r);
    }
    var k := r - |out|;
    ResultInSuffix(out, data, m, k);
    forall i | 0 <= i < k ensures !ResultAt(data, m, i) {
      ResultInSuffix(out, data, m, i);
      assert !ResultAt(all, m, |out| + i);
    }
    assert all[..r + |m|] == out + data[..k + |m|];
    SpacedSuffix(out, data[..k + |m|], m);
    SpacedIsClear(data, m, k);
    FirstResultIsLeast(data, m, 0, k);
  }

  // ---- whole runs without a result ----

  /** Where a run stands before the result: the input is what was shown, plus what is kept,
      and no marker that is cut off, or followed by whitespace only, was shown. */
  ghost predicate Tracks(o: Outcome, m: seq<Byte>, cap: nat, echo: seq<Byte>, fed: seq<Byte>) {
    && Waits(o.state, cap, echo)
    && Captured(o.state, o.out)
    && o.out + o.state.pending == Body(echo, fed)
    && (o.state.echoStripped <==> echo != [] && Decided(echo, fed))
    && (if Decided(echo, fed) then
          Covered(Body(echo, fed), m, |o.out|) && KeptShape(o.state.pending, m)
        else
          o.out == [] && o.state.pending == fed && fed < echo)
  }

  predicate Waits(s: State, cap: nat, echo: seq<Byte>) {
    s.done == Waiting && s.exitCode == None && s.cap == cap && s.echo == echo
  }

  lemma QuietPrefix(a: seq<Byte>, b: seq<Byte>, m: seq<Byte>)
    requires Quiet(a + b, m)
    ensures Quiet(a, m)
  {
    NoResultPrefix(a, b, m);
    SpacedPrefix(a, b, m);
  }

  /** A `feed` that settles the echo question, or comes later, scans what follows the echo. */
  lemma FeedScans(o: Outcome, m: seq<Byte>, cap: nat, echo: seq<Byte>, fed: seq<Byte>, chunk: seq<Byte>)
    requires m != [] && Tracks(o, m, cap, echo, fed) && Decided(echo, fed + chunk)
    ensures Incoming(o.state, chunk).Some?
    ensures var s, data := o.state.(pending := [], echoStripped := echo != []), Incoming(o.state, chunk).value;
      && Feed(o.state, m, chunk) == Scan(s, m, data)
      && o.out + data == Body(echo, fed + chunk)
    ensures var text := if Decided(echo, fed) then Body(echo, fed) else [];
      && text <= Body(echo, fed + chunk) && |o.out| <= |text| && Covered(text, m, |o.out|)
  {
    hide Scan, Captured, KeptShape;
    var s := o.state;
    if Decided(echo, fed) {
      BodyGrows(echo, fed, chunk);
      assert o.out + (s.pending + chunk) == Body(echo, fed) + chunk;
    } else {
      assert s.pending + chunk == fed + chunk;
      assert !(fed + chunk <= echo) || echo == fed + chunk;
    }
  }

  /** The fields after a scan that found nothing. */
  lemma ScanWithoutResult(s: State, m: seq<Byte>, cap: nat, echo: seq<Byte>, out: seq<Byte>, data: seq<Byte>)
    requires m != [] && FirstResult(data, m, 0) == -1 && Captured(s, out) && Waits(s, cap, echo)
    ensures var o, w := Scan(s, m, data), Withhold(data, m);
      && o.out == w.visible && o.state.pending == w.pending
      && Captured(o.state, out + w.visible)
      && o.state.echoStripped == s.echoStripped
      && Waits(o.state, cap, echo)
  {
    hide Withhold, FirstResult, Captured, Conclude;
    var w := Withhold(data, m);
    assert Captured(s.(pending := w.pending), out) by { PendingIsNotCaptured(s, out, w.pending); }
    AbsorbCaptures(s.(pending := w.pending), out, w.visible);
  }

  lemma TracksAgain(step: Outcome, m: seq<Byte>, cap: nat, echo: seq<Byte>, fed: seq<Byte>,
                    out: seq<Byte>, data: seq<Byte>, w: Split)
    requires Decided(echo, fed) && out + data == Body(echo, fed)
    requires w.visible + w.pending == data && KeptShape(w.pending, m)
    requires step.out == w.visible && step.state.pending == w.pending
    requires Waits(step.state, cap, echo) && Captured(step.state, out + w.visible)
    requires step.state.echoStripped <==> echo != []
    requires Covered(out + data, m, |out| + |w.visible|)
    ensures Tracks(Outcome(step.state, out + step.out), m, cap, echo, fed)
  {
    assert (out + w.visible) + w.pending == out + data;
  }

  lemma FeedTracks(o: Outcome, m: seq<Byte>, cap: nat, echo: seq<Byte>, fed: seq<Byte>, chunk: seq<Byte>)
    requires GoodMarker(m) && Tracks(o, m, cap, echo, fed)
    requires Decided(echo, fed + chunk) ==> Quiet(Body(echo, fed + chunk), m)
    ensures Tracks(Step(o, m, chunk), m, cap, echo, fed + chunk)
  {
    if Decided(echo, fed + chunk) {
      FeedScans(o, m, cap, echo, fed, chunk);
      var data := Incoming(o.state, chunk).value;
      var text := if Decided(echo, fed) then Body(echo, fed) else [];
      ScanWithholds(m, o.out, data);
      ScanCovers(m, o.out, text, data);
      var s := o.state.(pending := [], echoStripped := echo != []);
      ScanWithoutResult(s, m, cap, echo, o.out, data);
      TracksAgain(Scan(s, m, data), m, cap, echo, fed + chunk, o.out, data, Withhold(data, m));
    } else {
      UndecidedFeed(o, m, cap, echo, fed, chunk);
    }
  }

  lemma UndecidedFeed(o: Outcome, m: seq<Byte>, cap: nat, echo: seq<Byte>, fed: seq<Byte>, chunk: seq<Byte>)
    requires m != [] && Tracks(o, m, cap, echo, fed) && !Decided(echo, fed + chunk)
    ensures Feed(o.state, m, chunk) == Outcome(o.state.(pending := fed + chunk), [])
    ensures Tracks(Outcome(o.state.(pending := fed + chunk), []), m, cap, echo, fed + chunk)
  {
    if Decided(echo, fed) { BodyGrows(echo, fed, chunk); }
    assert o.state.pending + chunk == fed + chunk;
  }

  /** Byte conservation, for every chunking of a stream without a result. */
  lemma {:induction false} RunConserves(m: seq<Byte>, cap: nat, echo: seq<Byte>, chunks: seq<seq<Byte>>)
    requires GoodMarker(m)
    requires Decided(echo, Flatten(chunks)) ==> Quiet(Body(echo, Flatten(chunks)), m)
    ensures Tracks(Run(Start(cap, echo), m, chunks), m, cap, echo, Flatten(chunks))
  {
    if chunks == [] {
      assert Captured(Initial(cap, echo), []);
      assert Body(echo, []) == [];
    } else {
      var init, c := chunks[..|chunks| - 1], chunks[|chunks| - 1];
      if Decided(echo, Flatten(init)) {
        BodyGrows(echo, Flatten(init), c);
        QuietPrefix(Body(echo, Flatten(init)), c, m);
      }
      RunConserves(m, cap, echo, init);
      FeedTracks(Run(Start(cap, echo), m, init), m, cap, echo, Flatten(init), c);
    }
  }

  // ---- the bounded copy, for any stream at all ----

  /** The bytes one `feed` absorbs as command output. */
  function AbsorbedBy(s: State, m: seq<Byte>, chunk: seq<Byte>): seq<Byte>
    requires m != []
  {
    if !s.done.Waiting? || Incoming(s, chunk).None? then []
    else
      var text := Incoming(s, chunk).value;
      var r := FirstResult(text, m, 0);
      if r >= 0 then text[..r] else Withhold(text, m).visible
  }

  function Absorbed(o: Outcome, m: seq<Byte>, chunks: seq<seq<Byte>>): seq<Byte>
    requires m != []
  {
    if chunks == [] then []
    else
      var init := chunks[..|chunks| - 1];
      Absorbed(o, m, init) + AbsorbedBy(Run(o, m, init).state, m, chunks[|chunks| - 1])
  }

  lemma ScanCaptures(s: State, m: seq<Byte>, seen: seq<Byte>, data: seq<Byte>)
    requires m != [] && Captured(s, seen)
    ensures var r, o := FirstResult(data, m, 0), Scan(s, m, data);
      var absorbed := if r >= 0 then data[..r] else Withhold(data, m).visible;
      && Captured(o.state, seen + absorbed)
      && absorbed <= o.out
      && (r < 0 ==> absorbed == o.out)
      && (r >= 0 && s.done.Waiting? ==> o.state.done == Finished)
  {
    hide FirstResult, Withhold, Absorb, Finish, Captured;
    var r := FirstResult(data, m, 0);
    if r >= 0 {
      AbsorbCaptures(s, seen, data[..r]);
      AbsorbKeepsCap(s, data[..r]);
      FinishKeeps(Absorb(s, data[..r]), data[r + |m|..]);
    } else {
      var w := Withhold(data, m);
      PendingIsNotCaptured(s, seen, w.pending);
      AbsorbCaptures(s.(pending := w.pending), seen, w.visible);
    }
  }

  lemma PendingIsNotCaptured(s: State, seen: seq<Byte>, pending: seq<Byte>)
    ensures Captured(s.(pending := pending), seen) == Captured(s, seen)
  {
  }

  lemma FeedCaptures(s: State, m: seq<Byte>, seen: seq<Byte>, chunk: seq<Byte>)
    requires m != [] && Captured(s, seen)
    ensures var f, absorbed := Feed(s, m, chunk), AbsorbedBy(s, m, chunk);
      && Captured(f.state, seen + absorbed)
      && absorbed <= f.out
      && (f.state.done.Waiting? ==> absorbed == f.out)
  {
    hide FirstResult, Withhold, Scan, Incoming;
    if s.done.Waiting? && Incoming(s, chunk).Some? {
      var t := s.(pending := [], echoStripped := s.echoStripped || s.echo != []);
      assert Captured(t, seen);
      ScanCaptures(t, m, seen, Incoming(s, chunk).value);
    }
    assert seen + [] == seen;
  }

  /** For every chunking of every stream, spaced or not: the agent's copy is the first `cap`
      bytes of what was absorbed as output, marked truncated exactly when there was more; the
      absorbed bytes are what the browser was shown, up to the marker. */
  lemma {:induction false} CaptureIsPrefix(m: seq<Byte>, cap: nat, echo: seq<Byte>, chunks: seq<seq<Byte>>)
    requires m != []
    ensures var o, absorbed := Run(Start(cap, echo), m, chunks), Absorbed(Start(cap, echo), m, chunks);
      && Captured(o.state, absorbed) && o.state.cap == cap
      && absorbed <= o.out
      && (o.state.done.Waiting? ==> absorbed == o.out)
  {
    hide Feed, AbsorbedBy;
    if chunks == [] {
      assert Captured(Initial(cap, echo), []);
    } else {
      var init, c := chunks[..|chunks| - 1], chunks[|chunks| - 1];
      CaptureIsPrefix(m, cap, echo, init);
      var before, seen := Run(Start(cap, echo), m, init), Absorbed(Start(cap, echo), m, init);
      FeedCaptures(before.state, m, seen, c);
      FeedKeepsCap(before.state, m, c);
    }
  }

  lemma FeedKeepsCap(s: State, m: seq<Byte>, chunk: seq<Byte>)
    requires m != []
    ensures Feed(s, m, chunk).state.cap == s.cap
    ensures !s.done.Waiting? ==> Feed(s, m, chunk).state == s && AbsorbedBy(s, m, chunk) == []
  {
    hide Scan, FirstResult, Withhold, Incoming;
    if s.done.Waiting? && Incoming(s, chunk).Some? {
      ScanKeepsCap(s.(pending := [], echoStripped := s.echoStripped || s.echo != []), m, Incoming(s, chunk).value);
    }
  }

  lemma ScanKeepsCap(s: State, m: seq<Byte>, data: seq<Byte>)
    requires m != []
    ensures Scan(s, m, data).state.cap == s.cap
  {
    hide FirstResult, Withhold, Absorb, Finish;
    var r, w := FirstResult(data, m, 0), Withhold(data, m);
    AbsorbKeepsCap(s.(pending := w.pending), w.visible);
    if r >= 0 {
      AbsorbKeepsCap(s, data[..r]);
      FinishKeeps(Absorb(s, data[..r]), data[r + |m|..]);
    }
  }

  lemma AbsorbKeepsCap(s: State, data: seq<Byte>)
    ensures Absorb(s, data).cap == s.cap && Absorb(s, data).done == s.done
  {
  }

  /** Finishing sets the status and the future, nothing else. */
  lemma FinishKeeps(s: State, tail: seq<Byte>)
    ensures var t := Finish(s, tail).state;
      && t.cap == s.cap && (forall seen :: Captured(s, seen) ==> Captured(t, seen))
      && (s.done.Waiting? ==> t.done == Finished)
  {
    hide CarriesStatus, DigitStart, DigitLen, SpaceLen, DropLineEnd, IntLiteral;
  }
}
