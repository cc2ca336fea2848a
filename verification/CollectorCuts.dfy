/** Where a cut of the terminal output does harm: exactly which chunkings of the status line
    the command collector reads right. */
module CollectorCuts {
  import opened Bytes
  import opened Options
  import opened MarkerText
  import opened CollectorSpec
  import opened CollectorProofs
  import opened CollectorRuns
  import opened CollectorTheorems

  // ---- a cut behind the sign ----

  /** No marker that some later input would complete has been shown. */
  ghost predicate Withheld(m: seq<Byte>, cap: nat, echo: seq<Byte>, chunks: seq<seq<Byte>>)
    requires m != []
  {
    forall i :: MayComplete(Body(echo, Flatten(chunks)), m, i) ==> |Run(Start(cap, echo), m, chunks).out| <= i
  }

  /** The input so far ends in a marker, whitespace and a sign. */
  ghost predicate EndsInSign(m: seq<Byte>, echo: seq<Byte>, fed: seq<Byte>) {
    Decided(echo, fed) && exists i :: SignedAt(Body(echo, fed), m, i)
  }

  /** What a collector keeps back is too short to hold a marker with a sign. */
  lemma SignedIsShown(o: Outcome, m: seq<Byte>, cap: nat, echo: seq<Byte>, fed: seq<Byte>, i: int)
    requires GoodMarker(m) && Tracks(o, m, cap, echo, fed) && Decided(echo, fed)
    requires Spaced(Body(echo, fed), m) && SignedAt(Body(echo, fed), m, i)
    ensures i < |o.out|
  {
    hide Captured, Covered, Spaced, NoResult, GoodMarker, LoneSign, Decided, Body;
    var body, p := Body(echo, fed), o.state.pending;
    if !(p < m) {
      var j := |o.out|;
      assert body[j..] == p;
      assert body[j..j + |m|] == p[..|m|] == m;
      assert body[j + |m|..] == p[|m|..];
      if j <= i {
        KeptMarkerHasNoSign(body, m, j, i);
      }
    }
  }

  lemma KeptMarkerHasNoSign(body: seq<Byte>, m: seq<Byte>, j: int, i: int)
    requires GoodMarker(m) && Spaced(body, m) && OccursAt(body, m, j) && AllSpace(body[j + |m|..])
    requires j <= i
    ensures !SignedAt(body, m, i)
  {
    if OccursAt(body, m, i) {
      assert body[i + |m|..] == body[j + |m|..][i - j..];
      LoneSignIsNotSpace(body[i + |m|..]);
    }
  }

  lemma LoneSignIsNotSpace(t: seq<Byte>)
    requires AllSpace(t)
    ensures !LoneSign(t)
  {
  }

  /** Before the result, a marker that may still complete has been shown exactly when the
      input so far ends in a marker, whitespace and a sign: of the three forms an undecided
      marker has, this is the one the collector does not hold back. */
  lemma WithheldNowIff(m: seq<Byte>, cap: nat, echo: seq<Byte>, chunks: seq<seq<Byte>>)
    requires GoodMarker(m)
    requires Decided(echo, Flatten(chunks)) ==> Quiet(Body(echo, Flatten(chunks)), m)
    ensures Withheld(m, cap, echo, chunks) <==> !EndsInSign(m, echo, Flatten(chunks))
  {
    hide Run, OpenAt, MayComplete, SignedAt, KeptShape;
    var fed, o := Flatten(chunks), Run(Start(cap, echo), m, chunks);
    var body := Body(echo, fed);
    RunConserves(m, cap, echo, chunks);
    if Decided(echo, fed) {
      forall i ensures MayComplete(body, m, i) <==> OpenAt(body, m, i) || SignedAt(body, m, i) {
        MayCompleteIff(body, m, i);
      }
      forall i | SignedAt(body, m, i) ensures i < |o.out| {
        SignedIsShown(o, m, cap, echo, fed, i);
      }
    } else {
      forall i | MayComplete(body, m, i) ensures |o.out| <= i {
        assert 0 <= i by { MayCompleteIsInside(body, m, i); }
      }
    }
  }

  lemma MayCompleteIsInside(data: seq<Byte>, m: seq<Byte>, i: int)
    requires MayComplete(data, m, i)
    ensures 0 <= i < |data|
  {
  }

  /** Over a whole run before the result: nothing that may still complete is ever shown if
      and only if no chunk ends between a sign and its first digit. */
  lemma {:induction false} WithheldThroughoutIff(m: seq<Byte>, cap: nat, echo: seq<Byte>, chunks: seq<seq<Byte>>)
    requires GoodMarker(m)
    requires Decided(echo, Flatten(chunks)) ==> Quiet(Body(echo, Flatten(chunks)), m)
    ensures (forall n :: 0 <= n <= |chunks| ==> Withheld(m, cap, echo, chunks[..n]))
       <==> (forall n :: 0 <= n <= |chunks| ==> !EndsInSign(m, echo, Flatten(chunks[..n])))
  {
    hide Withheld, EndsInSign, Quiet, Body, Decided, Flatten;
    forall n | 0 <= n <= |chunks|
      ensures Withheld(m, cap, echo, chunks[..n]) <==> !EndsInSign(m, echo, Flatten(chunks[..n]))
    {
      FlattenAppend(chunks[..n], chunks[n..]);
      assert chunks == chunks[..n] + chunks[n..];
      var fed, more := Flatten(chunks[..n]), Flatten(chunks[n..]);
      if Decided(echo, fed) {
        BodyGrows(echo, fed, more);
        QuietPrefix(Body(echo, fed), more, m);
      }
      WithheldNowIff(m, cap, echo, chunks[..n]);
    }
  }

  // ---- runs from any moment on ----

  /** The echo question is settled. */
  predicate Settled(s: State) { s.echo == [] || s.echoStripped }

  /** A waiting collector passes on what follows, as long as nothing in it is a result. */
  lemma {:induction false} RunFlows(o: Outcome, m: seq<Byte>, chunks: seq<seq<Byte>>)
    requires m != [] && o.state.done.Waiting? && Settled(o.state)
    requires Quiet(o.state.pending + Flatten(chunks), m)
    ensures var r := Run(o, m, chunks);
      && r.state.done.Waiting? && Settled(r.state) && r.state.exitCode == o.state.exitCode
      && o.out <= r.out
      && r.out + r.state.pending == o.out + o.state.pending + Flatten(chunks)
  {
    hide Step, Quiet;
    if chunks != [] {
      var init, c := chunks[..|chunks| - 1], chunks[|chunks| - 1];
      assert o.state.pending + Flatten(chunks) == (o.state.pending + Flatten(init)) + c;
      QuietPrefix(o.state.pending + Flatten(init), c, m);
      RunFlows(o, m, init);
      var r := Run(o, m, init);
      var shown := r.out[|o.out|..];
      assert shown + r.state.pending == o.state.pending + Flatten(init) by {
        assert r.out == o.out + shown;
        assert (r.out + r.state.pending)[|o.out|..] == shown + r.state.pending;
        assert (o.out + o.state.pending + Flatten(init))[|o.out|..] == o.state.pending + Flatten(init);
      }
      StepFlows(r, m, shown, c);
    }
  }

  lemma StepFlows(r: Outcome, m: seq<Byte>, shown: seq<Byte>, c: seq<Byte>)
    requires m != [] && r.state.done.Waiting? && Settled(r.state)
    requires Quiet(shown + r.state.pending + c, m)
    ensures var t := Step(r, m, c);
      && t.state.done.Waiting? && Settled(t.state) && t.state.exitCode == r.state.exitCode
      && r.out <= t.out && t.out + t.state.pending == r.out + r.state.pending + c
  {
    hide FirstResult, Withhold, Quiet, Conclude;
    var data := r.state.pending + c;
    assert shown + r.state.pending + c == shown + data;
    ScanWithholds(m, shown, data);
    var w := Withhold(data, m);
    assert (r.out + w.visible) + w.pending == r.out + data;
  }

  // ---- the sign cut ----

  /** Output, marker, whitespace and a sign are still quiet. */
  lemma QuietUpToSign(a: seq<Byte>, m: seq<Byte>, w: seq<Byte>)
    requires GoodMarker(m) && DASH !in m && NoResult(a, m) && Spaced(a + m, m) && AllSpace(w)
    ensures Quiet(a + m + w + [DASH], m)
  {
    var body := a + m + w;
    var all := body + [DASH];
    QuietUpToStatus(a, m, w);
    forall i ensures OccursAt(all, m, i) <==> OccursAt(body, m, i) {
      OccursInPrefix(body, [DASH], m, i);
      if i >= 0 && i + |m| == |all| { assert all[i..][|m| - 1] == DASH; }
    }
    forall i ensures !ResultAt(all, m, i) {
      if OccursAt(body, m, i) {
        assert !ResultAt(body, m, i);
        assert all[i + |m|..] == body[i + |m|..] + [DASH];
        SignAddsNoStatus(body[i + |m|..]);
      }
    }
    forall i, k | OccursAt(all, m, i) && 1 <= k < |m| && k <= i ensures all[i - k..i] != m[..k] {
      assert all[i - k..i] == body[i - k..i];
    }
  }

  lemma SignAddsNoStatus(t: seq<Byte>)
    requires !CarriesStatus(t)
    ensures !CarriesStatus(t + [DASH])
  {
    if CarriesStatus(t + [DASH]) {
      StatusNeeds(t, [DASH]);
      StatusAfterSpace(t, [DASH]);
    }
  }

  /** A chunk that ends in the sign loses the status: the marker is shown, and the command is
      not done however much follows. */
  lemma SignCutLosesStatus(
      m: seq<Byte>, cap: nat, echo: seq<Byte>, before: seq<seq<Byte>>, after: seq<seq<Byte>>,
      a: seq<Byte>, w: seq<Byte>)
    requires GoodMarker(m) && DASH !in m && NoResult(a, m) && Spaced(a + m, m) && AllSpace(w)
    requires Decided(echo, Flatten(before)) && Body(echo, Flatten(before)) == a + m + w + [DASH]
    requires Quiet(Flatten(after), m)
    ensures Run(Start(cap, echo), m, before).out == a + m + w + [DASH]
    ensures var o := Run(Start(cap, echo), m, before + after);
      && o.state.done == Waiting && o.state.exitCode == None
      && o.out + o.state.pending == a + m + w + [DASH] + Flatten(after)
  {
    hide Run, Quiet, Captured;
    QuietUpToSign(a, m, w);
    RunConserves(m, cap, echo, before);
    var o := Run(Start(cap, echo), m, before);
    NothingKeptAtSign(o.out, o.state.pending, m, a + m + w);
    assert o.state.pending + Flatten(after) == Flatten(after);
    RunFlows(o, m, after);
    RunAppend(Start(cap, echo), m, before, after);
  }

  lemma NothingKeptAtSign(out: seq<Byte>, pending: seq<Byte>, m: seq<Byte>, body: seq<Byte>)
    requires DASH !in m && KeptShape(pending, m) && out + pending == body + [DASH]
    ensures pending == [] && out == body + [DASH]
  {
    if pending != [] {
      assert (out + pending)[|out| + |pending| - 1] == pending[|pending| - 1];
      KeptEndsInNoSign(pending, m);
    }
  }

  lemma KeptEndsInNoSign(pending: seq<Byte>, m: seq<Byte>)
    requires DASH !in m && KeptShape(pending, m) && pending != []
    ensures pending[|pending| - 1] != DASH
  {
    var k := |pending| - 1;
    if k < |m| {
      assert pending[k] == m[k];
    } else {
      assert pending[|m|..][k - |m|] == pending[k];
    }
  }

  lemma ShortIsQuiet(t: seq<Byte>, m: seq<Byte>)
    requires |t| < |m|
    ensures Quiet(t, m)
  {
  }

  /** For example: the status -1 in two chunks, with the cut behind the sign. */
  lemma {:induction false} NegativeStatusLost(hex: seq<Byte>, cap: nat)
    requires forall k :: 0 <= k < |hex| ==> IsHex(hex[k])
    ensures var m := MarkerFor(hex);
      var o := Run(Start(cap, []), m, [m + [DASH], [49, 10]]);
      o.state.done == Waiting && o.state.exitCode == None && m <= o.out
  {
    hide MarkerFor, Run, Flatten, NoResult, Spaced, Quiet, GoodMarker, Start;
    var m := MarkerFor(hex);
    MarkerIsGood(hex);
    assert |m| > 2 by { MarkerIsLong(hex); }
    SignAlone(m, cap);
  }

  lemma MarkerIsLong(hex: seq<Byte>)
    ensures |MarkerFor(hex)| > 2
  {
  }

  lemma SignAlone(m: seq<Byte>, cap: nat)
    requires GoodMarker(m) && DASH !in m && |m| > 2
    ensures var o := Run(Start(cap, []), m, [m + [DASH], [49, 10]]);
      o.state.done == Waiting && o.state.exitCode == None && m <= o.out
  {
    hide Run, Flatten, NoResult, Spaced, Quiet, GoodMarker;
    var first, second: seq<Byte> := m + [DASH], [49, 10];
    assert Flatten([first]) == first && Flatten([second]) == second by { FlattenOne(first); FlattenOne(second); }
    ShortIsQuiet([], m);
    ShortIsQuiet(second, m);
    assert Spaced([] + m, m) && NoResult([], m) by { OnlyMarkerIsSpaced(m); }
    assert [] + m + [] + [DASH] == first;
    assert [first] + [second] == [first, second];
    SignCutLosesStatus(m, cap, [], [first], [second], [], []);
    RunGrows(Start(cap, []), m, [first], [second]);
  }

  lemma FlattenOne(c: seq<Byte>)
    ensures Flatten([c]) == c
  {
    FlattenSnoc([], c);
    assert [] + [c] == [c];
  }

  lemma OnlyMarkerIsSpaced(m: seq<Byte>)
    ensures Spaced([] + m, m) && (m != [] ==> NoResult([], m))
  {
  }

  lemma {:induction false} RunGrows(o: Outcome, m: seq<Byte>, a: seq<seq<Byte>>, b: seq<seq<Byte>>)
    requires m != []
    ensures Run(o, m, a).out <= Run(o, m, a + b).out
    decreases |b|
  {
    if b == [] {
      assert a + b == a;
    } else {
      assert (a + b)[..|a + b| - 1] == a + b[..|b| - 1];
      RunGrows(o, m, a, b[..|b| - 1]);
    }
  }

  // ---- a cut inside the number or its line end ----

  /** The length of the line end a text starts with. */
  function LineEndLen(t: seq<Byte>): nat { |t| - |DropLineEnd(t)| }

  lemma DropLineEndEarly(t: seq<Byte>, more: seq<Byte>)
    ensures DropLineEnd(t) + more == DropLineEnd(t + more) <==> |t| >= LineEndLen(t + more)
  {
    var all := t + more;
    if |t| >= 1 { assert all[0] == t[0] && all[1..] == t[1..] + more; }
    if |t| >= 2 { assert all[1] == t[1] && all[2..] == t[2..] + more; }
    if t == [] { assert all == more; }
  }

  predicate AllZero(d: seq<Byte>) { forall k :: 0 <= k < |d| ==> d[k] == 48 }

  lemma {:induction false} ValueIsZeroIff(d: seq<Byte>)
    requires AllDigits(d)
    ensures DecimalValue(d) >= 0 && (DecimalValue(d) == 0 <==> AllZero(d))
  {
    if d != [] { ValueIsZeroIff(d[..|d| - 1]); }
  }

  lemma {:induction false} ValueGrows(d: seq<Byte>, more: seq<Byte>)
    requires AllDigits(d) && AllDigits(d + more) && more != []
    ensures DecimalValue(d + more) >= 10 * DecimalValue(d)
  {
    var init := more[..|more| - 1];
    assert (d + more)[..|d + more| - 1] == d + init;
    ValueIsZeroIff(d);
    if init == [] {
      assert d + init == d;
    } else {
      ValueGrows(d, init);
    }
  }

  /** A number read short is read right exactly when it is zero. */
  lemma ShortValueIff(d: seq<Byte>, more: seq<Byte>)
    requires AllDigits(d) && AllDigits(d + more) && more != []
    ensures DecimalValue(d) == DecimalValue(d + more) <==> AllZero(d + more)
  {
    ValueGrows(d, more);
    ValueIsZeroIff(d);
    ValueIsZeroIff(d + more);
    assert forall k :: 0 <= k < |d| ==> d[k] == (d + more)[k];
  }

  /** A number cut in two: the status is its first part, and the browser is shown the second
      part and whatever follows, line end included. */
  lemma {:induction false} CutNumberIsReadShort(
      m: seq<Byte>, cap: nat, echo: seq<Byte>,
      before: seq<seq<Byte>>, last: seq<Byte>, after: seq<seq<Byte>>,
      a: seq<Byte>, w: seq<Byte>, negative: bool, first: seq<Byte>, second: seq<Byte>, rest: seq<Byte>)
    requires GoodMarker(m) && NoResult(a, m) && Spaced(a + m, m)
    requires AllSpace(w) && AllDigits(first) && AllDigits(second) && first != []
    requires Decided(echo, Flatten(before) + last)
    requires Body(echo, Flatten(before) + last) == a + m + (w + Literal(negative, first))
    requires Decided(echo, Flatten(before)) ==> |Body(echo, Flatten(before))| <= |a + m + w|
    requires Flatten(after) == second + rest
    ensures var o := Run(Start(cap, echo), m, before + [last] + after);
      && o.state.done == Finished && o.state.exitCode == IntLiteral(negative, first)
      && o.out == a + second + rest
  {
    hide Run, NoResult, Spaced, IntLiteral, Captured, Body, Decided;
    assert w + Literal(negative, first) + [] == w + Literal(negative, first);
    ResultInAnyChunking(m, cap, echo, before, last, after, a, w, negative, first, []);
    assert a + DropLineEnd([]) + Flatten(after) == a + second + rest;
  }

  /** The run has the output `a` and what follows the status line, and the number. */
  predicate ReadsRight(o: Outcome, a: seq<Byte>, negative: bool, digits: seq<Byte>, rest: seq<Byte>)
    requires AllDigits(digits)
  {
    o.state.exitCode == IntLiteral(negative, digits) && o.out == a + DropLineEnd(rest)
  }

  /** A stream of output, marker, whitespace, number and `rest`, cut anywhere; `last` is the
      chunk that brings the first digit. The status and the shown text are right if and only
      if no chunk ends between sign and number, and `last` carries the whole number and the
      line end behind it. The status alone is right also when only zeros were cut off zeros. */
  lemma {:induction false} ReadsRightIff(
      m: seq<Byte>, cap: nat, echo: seq<Byte>,
      before: seq<seq<Byte>>, last: seq<Byte>, after: seq<seq<Byte>>,
      a: seq<Byte>, w: seq<Byte>, negative: bool, digits: seq<Byte>, rest: seq<Byte>)
    requires GoodMarker(m) && NoResult(a, m) && Spaced(a + m, m)
    requires AllSpace(w) && AllDigits(digits) && 0 < |digits| <= MAX_INT_DIGITS
    requires rest == [] || !IsDigit(rest[0])
    requires negative && Decided(echo, Flatten(before)) && |Body(echo, Flatten(before))| > |a + m + w| ==>
      DASH !in m && Quiet(digits + rest, m)
    requires Decided(echo, Flatten(before) + last)
    requires Body(echo, Flatten(before) + last) + Flatten(after) == a + m + (w + Literal(negative, digits) + rest)
    requires |Body(echo, Flatten(before) + last)| > |a + m + w + Literal(negative, [])|
    requires Decided(echo, Flatten(before)) ==> |Body(echo, Flatten(before))| <= |a + m + w + Literal(negative, [])|
    ensures var o := Run(Start(cap, echo), m, before + [last] + after);
      var signCut := negative && Decided(echo, Flatten(before)) && |Body(echo, Flatten(before))| > |a + m + w|;
      var got := |Body(echo, Flatten(before) + last)| - |a + m + w + Literal(negative, [])|;
      && (ReadsRight(o, a, negative, digits, rest) <==> !signCut && got >= |digits| + LineEndLen(rest))
      && (o.state.exitCode == IntLiteral(negative, digits) <==> !signCut && (got >= |digits| || AllZero(digits)))
  {
    hide Run, NoResult, Spaced, Captured, Quiet, Body, Decided, AllDigits, AllZero, DropLineEnd, DecimalValue, Start;
    var lead, text := a + m + w + Literal(negative, []), Body(echo, Flatten(before) + last);
    assert a + m + (w + Literal(negative, digits) + rest) == lead + (digits + rest);
    SplitBehind(text, Flatten(after), lead, digits + rest);
    var got := text[|lead|..];
    if negative && Decided(echo, Flatten(before)) && |Body(echo, Flatten(before))| > |a + m + w| {
      SignCut(m, cap, echo, before, last, after, a, w, got, digits, rest);
    } else if |got| >= |digits| {
      SplitBehind(got, Flatten(after), digits, rest);
      WholeNumber(m, cap, echo, before, last, after, a, w, negative, digits, got[|digits|..], rest);
    } else {
      CutNumber(m, cap, echo, before, last, after, a, w, negative, digits, got, rest);
    }
  }

  lemma SplitBehind(x: seq<Byte>, y: seq<Byte>, lead: seq<Byte>, t: seq<Byte>)
    requires x + y == lead + t && |x| >= |lead|
    ensures x == lead + x[|lead|..] && x[|lead|..] + y == t
  {
    assert lead == (lead + t)[..|lead|] == (x + y)[..|lead|] == x[..|lead|];
    assert t == (lead + t)[|lead|..] == (x + y)[|lead|..] == x[|lead|..] + y;
  }

  lemma SignCut(
      m: seq<Byte>, cap: nat, echo: seq<Byte>,
      before: seq<seq<Byte>>, last: seq<Byte>, after: seq<seq<Byte>>,
      a: seq<Byte>, w: seq<Byte>, got: seq<Byte>, digits: seq<Byte>, rest: seq<Byte>)
    requires GoodMarker(m) && DASH !in m && NoResult(a, m) && Spaced(a + m, m) && AllSpace(w)
    requires Quiet(digits + rest, m) && got + Flatten(after) == digits + rest
    requires Decided(echo, Flatten(before)) && |Body(echo, Flatten(before))| == |a + m + w| + 1
    requires Body(echo, Flatten(before) + last) == a + m + w + [DASH] + got
    ensures Run(Start(cap, echo), m, before + [last] + after).state.exitCode == None
  {
    hide Run, NoResult, Spaced, Quiet, Body, Decided;
    var lead := a + m + w + [DASH];
    BodyGrows(echo, Flatten(before), last);
    assert Body(echo, Flatten(before)) == (lead + got)[..|lead|] == lead;
    assert last == (lead + got)[|lead|..] == got;
    FlattenAppend([last], after);
    FlattenOne(last);
    assert before + [last] + after == before + ([last] + after);
    SignCutLosesStatus(m, cap, echo, before, [last] + after, a, w);
  }

  lemma WholeNumber(
      m: seq<Byte>, cap: nat, echo: seq<Byte>,
      before: seq<seq<Byte>>, last: seq<Byte>, after: seq<seq<Byte>>,
      a: seq<Byte>, w: seq<Byte>, negative: bool, digits: seq<Byte>, near: seq<Byte>, rest: seq<Byte>)
    requires GoodMarker(m) && NoResult(a, m) && Spaced(a + m, m)
    requires AllSpace(w) && AllDigits(digits) && 0 < |digits| <= MAX_INT_DIGITS
    requires (rest == [] || !IsDigit(rest[0])) && near + Flatten(after) == rest
    requires Decided(echo, Flatten(before) + last)
    requires Body(echo, Flatten(before) + last) == a + m + w + Literal(negative, []) + (digits + near)
    requires Decided(echo, Flatten(before)) ==> |Body(echo, Flatten(before))| <= |a + m + w|
    ensures var o := Run(Start(cap, echo), m, before + [last] + after);
      && o.state.exitCode == IntLiteral(negative, digits)
      && (o.out == a + DropLineEnd(rest) <==> |near| >= LineEndLen(rest))
  {
    hide Run, NoResult, Spaced, IntLiteral, Captured, Body, Decided, DropLineEnd;
    assert near != [] ==> near[0] == rest[0];
    assert a + m + w + Literal(negative, []) + (digits + near) == a + m + (w + Literal(negative, digits) + near);
    ResultInAnyChunking(m, cap, echo, before, last, after, a, w, negative, digits, near);
    DropLineEndEarly(near, Flatten(after));
    var shown := DropLineEnd(near) + Flatten(after);
    assert a + DropLineEnd(near) + Flatten(after) == a + shown;
    assert (a + shown)[|a|..] == shown && (a + DropLineEnd(rest))[|a|..] == DropLineEnd(rest);
  }

  lemma CutNumber(
      m: seq<Byte>, cap: nat, echo: seq<Byte>,
      before: seq<seq<Byte>>, last: seq<Byte>, after: seq<seq<Byte>>,
      a: seq<Byte>, w: seq<Byte>, negative: bool, digits: seq<Byte>, first: seq<Byte>, rest: seq<Byte>)
    requires GoodMarker(m) && NoResult(a, m) && Spaced(a + m, m)
    requires AllSpace(w) && AllDigits(digits) && 0 < |first| < |digits| <= MAX_INT_DIGITS
    requires first + Flatten(after) == digits + rest
    requires Decided(echo, Flatten(before) + last)
    requires Body(echo, Flatten(before) + last) == a + m + w + Literal(negative, []) + first
    requires Decided(echo, Flatten(before)) ==> |Body(echo, Flatten(before))| <= |a + m + w|
    ensures var o := Run(Start(cap, echo), m, before + [last] + after);
      && (o.state.exitCode == IntLiteral(negative, digits) <==> AllZero(digits))
      && o.out != a + DropLineEnd(rest)
  {
    hide Run, NoResult, Spaced, Captured, Body, Decided, DecimalValue;
    var second := digits[|first|..];
    assert first == (first + Flatten(after))[..|first|] == digits[..|first|];
    assert Flatten(after) == (first + Flatten(after))[|first|..] == second + rest;
    assert first + second == digits;
    assert a + m + w + Literal(negative, []) + first == a + m + (w + Literal(negative, first));
    CutNumberIsReadShort(m, cap, echo, before, last, after, a, w, negative, first, second, rest);
    ShortValueIff(first, second);
    assert |a + second + rest| > |a + DropLineEnd(rest)|;
  }
}
