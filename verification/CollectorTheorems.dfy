/** The main results about the command collector. */
module CollectorTheorems {
  import opened Bytes
  import opened Options
  import opened MarkerText
  import opened CollectorSpec
  import opened CollectorProofs
  import opened CollectorRuns

  // ---- the status line ----

  /** `-?\d+` as written. */
  function Literal(negative: bool, digits: seq<Byte>): seq<Byte> {
    (if negative then [DASH] else []) + digits
  }

  /** Where the status pattern finds its parts. */
  lemma StatusParts(w: seq<Byte>, negative: bool, digits: seq<Byte>, rest: seq<Byte>)
    requires AllSpace(w) && AllDigits(digits) && digits != []
    requires rest == [] || !IsDigit(rest[0])
    ensures var tail := w + Literal(negative, digits) + rest;
      var d := |w| + (if negative then 1 else 0);
      && CarriesStatus(tail) && SpaceLen(tail) == |w| && DigitStart(tail) == d
      && tail[d..] == digits + rest && DigitLen(tail[d..]) == |digits|
      && tail[d + |digits|..] == rest
  {
    hide CarriesStatus, SpaceLen, DigitLen;
    var sign := Literal(negative, []);
    var tail := w + Literal(negative, digits) + rest;
    var d := |w| + |sign|;
    assert tail == w + (sign + (digits + rest)) == (w + sign) + (digits + rest);
    assert tail[d..] == digits + rest && tail[d + |digits|..] == rest;
    assert tail[|w|] == (sign + (digits + rest))[0] && tail[d] == digits[0] && IsDigit(digits[0]);
    SpaceLenOf(w, sign + (digits + rest));
    CarriesStatusAtDigit(tail);
    DigitLenOf(digits, rest);
  }

  /** The status line is read back exactly: the number, and what follows its line end. */
  lemma StatusReadBack(s: State, w: seq<Byte>, negative: bool, digits: seq<Byte>, rest: seq<Byte>)
    requires AllSpace(w) && AllDigits(digits) && digits != []
    requires rest == [] || !IsDigit(rest[0])
    requires s.done == Waiting && (s.exitCode == None || |digits| <= MAX_INT_DIGITS)
    ensures var tail := w + Literal(negative, digits) + rest;
      && CarriesStatus(tail)
      && Finish(s, tail) ==
        Outcome(s.(done := Finished, exitCode := IntLiteral(negative, digits)), DropLineEnd(rest))
  {
    StatusParts(w, negative, digits, rest);
    var tail := w + Literal(negative, digits) + rest;
    FinishReads(s, tail, negative, digits, rest);
  }

  lemma FinishReads(s: State, tail: seq<Byte>, negative: bool, digits: seq<Byte>, rest: seq<Byte>)
    requires AllDigits(digits) && s.done == Waiting && (s.exitCode == None || |digits| <= MAX_INT_DIGITS)
    requires CarriesStatus(tail) && (DigitStart(tail) > SpaceLen(tail) <==> negative)
    requires tail[DigitStart(tail)..] == digits + rest
    requires DigitLen(tail[DigitStart(tail)..]) == |digits|
    requires tail[DigitStart(tail) + |digits|..] == rest
    ensures Finish(s, tail) ==
      Outcome(s.(done := Finished, exitCode := IntLiteral(negative, digits)), DropLineEnd(rest))
  {
    hide CarriesStatus, SpaceLen, DigitStart, DigitLen, DropLineEnd;
    assert tail[DigitStart(tail)..][..|digits|] == digits;
  }

  /** The line end the wrapper prints is dropped, once. */
  lemma LineEndDropped(rest: seq<Byte>)
    ensures DropLineEnd([13, 10] + rest) == rest
    ensures DropLineEnd([10] + rest) == rest
    ensures (rest == [] || rest[0] != 10) ==> DropLineEnd([13] + rest) == rest
    ensures (rest == [] || (rest[0] != 10 && rest[0] != 13)) ==> DropLineEnd(rest) == rest
  {
    assert ([13, 10] + rest)[..2] == [13, 10];
    assert ([10] + rest)[0] == 10 && ([13] + rest)[0] == 13;
    if |rest| > 0 { assert ([13] + rest)[1] == rest[0]; }
  }

  // ---- where the result is ----

  /** Text before the marker cannot borrow a status from the marker. */
  lemma OutputHasNoEarlierResult(a: seq<Byte>, m: seq<Byte>, tail: seq<Byte>, i: int)
    requires GoodMarker(m) && NoResult(a, m) && Spaced(a + m, m) && 0 <= i < |a|
    ensures !ResultAt(a + m + tail, m, i)
  {
    var all := a + m + tail;
    if OccursAt(all, m, i) {
      assert OccursAt(all, m, |a|) by { assert all[|a|..|a| + |m|] == m; }
      assert all[..|a| + |m|] == a + m;
      if |a| < i + |m| {
        OverlapIsNotSpaced(all, m, i, |a|);
      }
      assert all == a + (m + tail);
      OccursInPrefix(a, m + tail, m, i);
      assert !ResultAt(a, m, i);
      assert all[i + |m|..] == a[i + |m|..] + (m + tail);
      PlainByteBlocksStatus(a[i + |m|..], m + tail);
    }
  }

  lemma ResultIsAtMarker(a: seq<Byte>, m: seq<Byte>, tail: seq<Byte>)
    requires GoodMarker(m) && NoResult(a, m) && Spaced(a + m, m) && CarriesStatus(tail)
    ensures ResultAt(a + m + tail, m, |a|)
    ensures forall i :: 0 <= i < |a| ==> !ResultAt(a + m + tail, m, i)
  {
    var all := a + m + tail;
    assert all[|a|..|a| + |m|] == m;
    assert all[|a| + |m|..] == tail;
    forall i | 0 <= i < |a| ensures !ResultAt(all, m, i) {
      OutputHasNoEarlierResult(a, m, tail, i);
    }
  }

  /** Until the digits arrive, output plus marker plus whitespace is still quiet. */
  lemma QuietUpToStatus(a: seq<Byte>, m: seq<Byte>, w: seq<Byte>)
    requires GoodMarker(m) && NoResult(a, m) && Spaced(a + m, m) && AllSpace(w)
    ensures Quiet(a + m + w, m)
  {
    var all := a + m + w;
    forall j | |a| + |m| <= j < |all| ensures IsSpace(all[j]) {
      assert all[j] == w[j - |a| - |m|];
    }
    forall i | OccursAt(all, m, i) ensures i <= |a| {
      assert all[i..i + |m|][|m| - 1] == all[i + |m| - 1];
      assert !IsSpace(all[i + |m| - 1]);
    }
    forall i ensures !ResultAt(all, m, i) {
      if 0 <= i < |a| {
        OutputHasNoEarlierResult(a, m, w, i);
      } else if i == |a| {
        assert all[|a| + |m|..] == w;
        SpaceCarriesNothing(w);
      }
    }
    forall i, k | OccursAt(all, m, i) && 1 <= k < |m| && k <= i ensures all[i - k..i] != m[..k] {
      OccursInPrefix(a + m, w, m, i);
      assert all[i - k..i] == (a + m)[i - k..i];
    }
  }

  // ---- runs after the result ----

  lemma {:induction false} RunAfterDone(o: Outcome, m: seq<Byte>, chunks: seq<seq<Byte>>)
    requires m != [] && o.state.done != Waiting
    ensures Run(o, m, chunks) == Outcome(o.state, o.out + Flatten(chunks))
  {
    hide Step;
    if chunks != [] {
      var init, c := chunks[..|chunks| - 1], chunks[|chunks| - 1];
      RunAfterDone(o, m, init);
      StepAfterDone(Run(o, m, init), m, c);
      assert o.out + Flatten(init) + c == o.out + (Flatten(init) + c);
    }
  }

  lemma StepAfterDone(o: Outcome, m: seq<Byte>, c: seq<Byte>)
    requires m != [] && o.state.done != Waiting
    ensures Step(o, m, c) == Outcome(o.state, o.out + c)
  {
    hide Scan, Incoming;
  }

  lemma {:induction false} RunAppend(o: Outcome, m: seq<Byte>, a: seq<seq<Byte>>, b: seq<seq<Byte>>)
    requires m != []
    ensures Run(o, m, a + b) == Run(Run(o, m, a), m, b)
    decreases |b|
  {
    if b == [] {
      assert a + b == a;
    } else {
      var b' := b[..|b| - 1];
      assert (a + b)[..|a + b| - 1] == a + b';
      RunAppend(o, m, a, b');
    }
  }

  // ---- the main theorem ----

  /** The stream behind the wrapper echo is output `a`, marker, whitespace, a number, `rest`.
      However it is cut - inside the marker too - as long as sign and digits arrive in chunk
      `last`: the browser sees `a` and what follows the number without the line end behind it
      in `last`, the status is the number, the command is done on `last` and not before, and
      the agent's copy is the first `cap` bytes of `a`. CollectorCuts says for which cuts this
      is the number and the line end that were printed. */
  lemma {:induction false} ResultInAnyChunking(
      m: seq<Byte>, cap: nat, echo: seq<Byte>,
      before: seq<seq<Byte>>, last: seq<Byte>, after: seq<seq<Byte>>,
      a: seq<Byte>, w: seq<Byte>, negative: bool, digits: seq<Byte>, rest: seq<Byte>)
    requires GoodMarker(m) && NoResult(a, m) && Spaced(a + m, m)
    requires AllSpace(w) && AllDigits(digits) && digits != []
    requires rest == [] || !IsDigit(rest[0])
    requires Decided(echo, Flatten(before) + last)
    requires Body(echo, Flatten(before) + last) == a + m + (w + Literal(negative, digits) + rest)
    requires Decided(echo, Flatten(before)) ==> |Body(echo, Flatten(before))| <= |a + m + w|
    ensures Run(Start(cap, echo), m, before).state.done == Waiting
    ensures var end := Run(Start(cap, echo), m, before + [last]).state;
      && end.done == Finished && end.exitCode == IntLiteral(negative, digits) && Captured(end, a)
      && Run(Start(cap, echo), m, before + [last] + after)
         == Outcome(end, a + DropLineEnd(rest) + Flatten(after))
  {
    FinishesOnLast(m, cap, echo, before, last, a, w, negative, digits, rest);
    var step := Run(Start(cap, echo), m, before + [last]);
    RunAfterDone(step, m, after);
    RunAppend(Start(cap, echo), m, before + [last], after);
  }

  lemma FinishesOnLast(
      m: seq<Byte>, cap: nat, echo: seq<Byte>, before: seq<seq<Byte>>, last: seq<Byte>,
      a: seq<Byte>, w: seq<Byte>, negative: bool, digits: seq<Byte>, rest: seq<Byte>)
    requires GoodMarker(m) && NoResult(a, m) && Spaced(a + m, m)
    requires AllSpace(w) && AllDigits(digits) && digits != []
    requires rest == [] || !IsDigit(rest[0])
    requires Decided(echo, Flatten(before) + last)
    requires Body(echo, Flatten(before) + last) == a + m + (w + Literal(negative, digits) + rest)
    requires Decided(echo, Flatten(before)) ==> |Body(echo, Flatten(before))| <= |a + m + w|
    ensures Run(Start(cap, echo), m, before).state.done == Waiting
    ensures var end := Run(Start(cap, echo), m, before + [last]);
      && end.state.done == Finished && end.state.exitCode == IntLiteral(negative, digits)
      && Captured(end.state, a)
      && end.out == a + DropLineEnd(rest)
  {
    hide Step, NoResult, Spaced, Covered, Captured, KeptShape, Body, Decided, IntLiteral, Literal;
    var fed := Flatten(before);
    var o := Run(Start(cap, echo), m, before);
    QuietBefore(m, echo, fed, last, a, w, Literal(negative, digits) + rest);
    RunConserves(m, cap, echo, before);
    FinishingFeed(o, m, cap, echo, fed, last, a, w, negative, digits, rest);
    assert (before + [last])[..|before|] == before;
  }

  /** The feed that brings the number finishes the command. */
  lemma FinishingFeed(o: Outcome, m: seq<Byte>, cap: nat, echo: seq<Byte>, fed: seq<Byte>, last: seq<Byte>,
                      a: seq<Byte>, w: seq<Byte>, negative: bool, digits: seq<Byte>, rest: seq<Byte>)
    requires GoodMarker(m) && NoResult(a, m) && Spaced(a + m, m)
    requires AllSpace(w) && AllDigits(digits) && digits != []
    requires rest == [] || !IsDigit(rest[0])
    requires Tracks(o, m, cap, echo, fed) && Decided(echo, fed + last)
    requires Body(echo, fed + last) == a + m + (w + Literal(negative, digits) + rest)
    requires Decided(echo, fed) ==> Body(echo, fed) <= a + m + w
    ensures var step := Step(o, m, last);
      && step.state.done == Finished && step.state.exitCode == IntLiteral(negative, digits)
      && Captured(step.state, a)
      && step.out == a + DropLineEnd(rest)
  {
    FeedScans(o, m, cap, echo, fed, last);
    var data := Incoming(o.state, last).value;
    var text := if Decided(echo, fed) then Body(echo, fed) else [];
    FindsMarker(m, o.out, text, data, a, w, negative, digits, rest);
    var s := o.state.(pending := [], echoStripped := echo != []);
    assert Captured(s, o.out);
    ConcludeAt(s, m, o.out, data, a, w, negative, digits, rest);
  }

  lemma FindsMarker(m: seq<Byte>, out: seq<Byte>, text: seq<Byte>, data: seq<Byte>,
                    a: seq<Byte>, w: seq<Byte>, negative: bool, digits: seq<Byte>, rest: seq<Byte>)
    requires GoodMarker(m) && NoResult(a, m) && Spaced(a + m, m)
    requires AllSpace(w) && AllDigits(digits) && digits != []
    requires rest == [] || !IsDigit(rest[0])
    requires out + data == a + m + (w + Literal(negative, digits) + rest)
    requires text <= out + data && |out| <= |text| && Covered(text, m, |out|) && text <= a + m + w
    ensures |out| <= |a| && FirstResult(data, m, 0) == |a| - |out|
  {
    hide FirstResult, Covered, Spaced, NoResult, CarriesStatus, Literal, ResultAt;
    var tail := w + Literal(negative, digits) + rest;
    StatusParts(w, negative, digits, rest);
    ResultIsAtMarker(a, m, tail);
    assert a + m + tail == out + data;
    assert (a + m + tail)[..|a| + |m|] == a + m;
    SpaceBehindMarker(text, a + m, w);
    ScanFinds(m, out, text, data, |a|);
  }

  lemma SpaceBehindMarker(text: seq<Byte>, lead: seq<Byte>, w: seq<Byte>)
    requires text <= lead + w && AllSpace(w)
    ensures |lead| <= |text| ==> AllSpace(text[|lead|..])
  {
    if |lead| <= |text| { assert text[|lead|..] == w[..|text| - |lead|]; }
  }

  lemma QuietBefore(m: seq<Byte>, echo: seq<Byte>, fed: seq<Byte>, last: seq<Byte>,
                    a: seq<Byte>, w: seq<Byte>, lit: seq<Byte>)
    requires GoodMarker(m) && NoResult(a, m) && Spaced(a + m, m) && AllSpace(w)
    requires Body(echo, fed + last) == a + m + (w + lit)
    requires Decided(echo, fed) ==> |Body(echo, fed)| <= |a + m + w|
    ensures Decided(echo, fed) ==> Quiet(Body(echo, fed), m) && Body(echo, fed) <= a + m + w
  {
    if Decided(echo, fed) {
      BodyGrows(echo, fed, last);
      var text := Body(echo, fed);
      assert a + m + (w + lit) == (a + m + w) + lit;
      assert text == (text + last)[..|text|] == (a + m + w)[..|text|];
      QuietUpToStatus(a, m, w);
      assert a + m + w == text + (a + m + w)[|text|..];
      QuietPrefix(text, (a + m + w)[|text|..], m);
    }
  }

  lemma ConcludeAt(s: State, m: seq<Byte>, out: seq<Byte>, data: seq<Byte>, a: seq<Byte>, w: seq<Byte>,
                   negative: bool, digits: seq<Byte>, rest: seq<Byte>)
    requires m != [] && s.done == Waiting && s.exitCode == None && Captured(s, out) && |out| <= |a|
    requires AllSpace(w) && AllDigits(digits) && digits != []
    requires rest == [] || !IsDigit(rest[0])
    requires out + data == a + m + (w + Literal(negative, digits) + rest)
    requires FirstResult(data, m, 0) == |a| - |out|
    ensures var o := Scan(s, m, data);
      && o.state.done == Finished && o.state.exitCode == IntLiteral(negative, digits)
      && Captured(o.state, a)
      && out + o.out == a + DropLineEnd(rest)
  {
    hide Absorb, FirstResult, Scan, Finish, IntLiteral, DropLineEnd, Literal, CarriesStatus, AllSpace, AllDigits;
    var r := |a| - |out|;
    var tail := w + Literal(negative, digits) + rest;
    CutAt(out, data, a, m, tail, DropLineEnd(rest));
    AbsorbCaptures(s, out, data[..r]);
    AbsorbWaits(s, data[..r]);
    var t := Absorb(s, data[..r]);
    StatusReadBack(t, w, negative, digits, rest);
    var end := t.(done := Finished, exitCode := IntLiteral(negative, digits));
    assert Captured(end, a);
    ScanConcludes(s, m, data, r, tail, DropLineEnd(rest), end);
  }

  lemma AbsorbWaits(s: State, data: seq<Byte>)
    ensures Absorb(s, data).done == s.done && Absorb(s, data).exitCode == s.exitCode
  {
  }

  lemma ScanConcludes(s: State, m: seq<Byte>, data: seq<Byte>, r: nat, tail: seq<Byte>,
                      shown: seq<Byte>, end: State)
    requires m != [] && FirstResult(data, m, 0) == r && data[r + |m|..] == tail
    requires Finish(Absorb(s, data[..r]), tail) == Outcome(end, shown)
    ensures Scan(s, m, data) == Outcome(end, data[..r] + shown)
  {
    hide Absorb, FirstResult, Finish, Withhold;
  }

  lemma CutAt(out: seq<Byte>, data: seq<Byte>, a: seq<Byte>, m: seq<Byte>, tail: seq<Byte>, shown: seq<Byte>)
    requires out + data == a + m + tail && |out| <= |a|
    ensures out + data[..|a| - |out|] == a
    ensures data[|a| - |out| + |m|..] == tail
    ensures out + (data[..|a| - |out|] + shown) == a + shown
  {
    var all := out + data;
    assert out + data[..|a| - |out|] == all[..|a|] == a;
    assert data[|a| - |out| + |m|..] == all[|a| + |m|..] == tail;
    assert out + (data[..|a| - |out|] + shown) == (out + data[..|a| - |out|]) + shown;
  }

  // ---- when bytes are conserved ----

  /** Everything fed so far was returned or is kept back. */
  predicate Conserves(m: seq<Byte>, cap: nat, chunks: seq<seq<Byte>>)
    requires m != []
  {
    var o := Run(Start(cap, []), m, chunks);
    o.out + o.state.pending == Flatten(chunks)
  }

  /** Output without a result is conserved under every chunking of every prefix exactly when
      no marker in it stands directly behind a non-empty proper prefix of the marker. */
  lemma ConservationIffSpaced(m: seq<Byte>, cap: nat, a: seq<Byte>)
    requires GoodMarker(m) && NoResult(a, m)
    ensures (forall chunks :: Flatten(chunks) <= a ==> Conserves(m, cap, chunks)) <==> Spaced(a, m)
  {
    if Spaced(a, m) {
      forall chunks | Flatten(chunks) <= a ensures Conserves(m, cap, chunks) {
        var fed := Flatten(chunks);
        assert a == fed + a[|fed|..];
        QuietPrefix(fed, a[|fed|..], m);
        assert Body([], fed) == fed;
        RunConserves(m, cap, [], chunks);
      }
    } else {
      var i, k :| OccursAt(a, m, i) && 1 <= k < |m| && k <= i && a[i - k..i] == m[..k];
      LossyCut(m, cap, a, i, k);
      assert !Conserves(m, cap, [a[..i + |m|]]);
    }
  }

  /** The cut right behind such a marker loses the whole marker. */
  lemma {:induction false} LossyCut(m: seq<Byte>, cap: nat, a: seq<Byte>, i: nat, k: nat)
    requires m != [] && NoResult(a, m)
    requires OccursAt(a, m, i) && 1 <= k < |m| && k <= i && a[i - k..i] == m[..k]
    ensures Flatten([a[..i + |m|]]) <= a && !Conserves(m, cap, [a[..i + |m|]])
  {
    var data := a[..i + |m|];
    assert a == data + a[i + |m|..];
    NoResultPrefix(data, a[i + |m|..], m);
    assert data[..i][i - k..] == a[i - k..i];
    assert data[i..i + |m|] == a[i..i + |m|];
    MarkerBehindPrefixCollides(data, m, i, k);
    FirstFeedConservesIff(m, cap, data);
    assert Flatten([data]) == data by { FlattenSnoc([], data); assert [] + [data] == [data]; }
  }

  lemma MarkerBehindPrefixCollides(data: seq<Byte>, m: seq<Byte>, i: nat, k: nat)
    requires OccursAt(data, m, i) && |data| == i + |m| && 1 <= k < |m| && k <= i
    requires data[..i][i - k..] == m[..k]
    ensures Collides(data, m)
  {
    RFindIsRightmost(data, m);
    assert OccursAt(data, m, i);
    assert RFind(data, m) == i;
    assert EndsInPrefix(data[..i], m, k);
    PrefixLenIsLongest(data[..i], m);
  }

  /** A first chunk without a result is conserved exactly when the kept pieces do not collide. */
  lemma FirstFeedConservesIff(m: seq<Byte>, cap: nat, data: seq<Byte>)
    requires m != [] && NoResult(data, m)
    ensures Conserves(m, cap, [data]) <==> !Collides(data, m)
  {
    hide Run, Flatten, Withhold, Collides;
    FirstFeed(m, cap, data);
    WithholdConservesIff(data, m);
  }

  lemma FirstFeed(m: seq<Byte>, cap: nat, data: seq<Byte>)
    requires m != [] && NoResult(data, m)
    ensures Flatten([data]) == data
    ensures var o, w := Run(Start(cap, []), m, [data]), Withhold(data, m);
      o.out == w.visible && o.state.pending == w.pending
  {
    hide Withhold, FirstResult, Collides, Feed, Scan;
    if FirstResult(data, m, 0) >= 0 { FirstResultIsResult(data, m, 0); }
    FlattenSnoc([], data);
    assert [] + [data] == [data] && [data][..0] == [];
    FirstFeedScans(m, cap, data);
    ScanWithoutResult(Initial(cap, []), m, cap, [], [], data);
  }

  lemma FirstFeedScans(m: seq<Byte>, cap: nat, data: seq<Byte>)
    requires m != []
    ensures Feed(Initial(cap, []), m, data) == Scan(Initial(cap, []), m, data)
  {
    hide Scan;
    assert Initial(cap, []).pending + data == data;
  }
}
