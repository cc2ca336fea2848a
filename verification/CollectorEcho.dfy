/** The wrapper echo of a command whose terminal has already spoken: `run_command` installs the
    collector first and sets the echo later. */
module CollectorEcho {
  import opened Bytes
  import opened Options
  import opened MarkerText
  import opened CollectorSpec
  import opened CollectorProofs
  import opened CollectorRuns
  import opened CollectorTheorems
  import opened CollectorCuts

  /** Where a run stands after the echo was set on the outcome `o`, when `fed` is what was
      withheld then and everything fed since. */
  predicate Strips(r: Outcome, o: Outcome, echo: seq<Byte>, fed: seq<Byte>) {
    && r.state.done.Waiting? && r.state.echo == echo
    && r.state.exitCode == o.state.exitCode
    && o.out <= r.out
    && if Decided(echo, fed) then
         r.state.echoStripped && r.out + r.state.pending == o.out + Body(echo, fed)
       else
         !r.state.echoStripped && r.out == o.out && r.state.pending == fed
  }

  /** The echo may be set at any moment while the collector waits. Before the result, and once
      something is fed: shown plus withheld bytes grow by what was withheld at that moment and
      what followed, without the echo exactly when these start with it. */
  lemma {:induction false} EchoSetLate(o: Outcome, m: seq<Byte>, echo: seq<Byte>, chunks: seq<seq<Byte>>)
    requires m != [] && o.state.done.Waiting? && !o.state.echoStripped && echo != [] && chunks != []
    requires var fed := o.state.pending + Flatten(chunks); Decided(echo, fed) ==> Quiet(Body(echo, fed), m)
    ensures var start := Outcome(WithEcho(o.state, echo), o.out);
      Strips(Run(start, m, chunks), o, echo, o.state.pending + Flatten(chunks))
  {
    hide Step, Quiet, Decided, Body;
    var start, p := Outcome(WithEcho(o.state, echo), o.out), o.state.pending;
    var init, c := chunks[..|chunks| - 1], chunks[|chunks| - 1];
    var before := p + Flatten(init);
    assert p + Flatten(chunks) == before + c;
    if init == [] {
      assert before == p;
      EchoDecides(start, o, m, echo, p, c);
    } else {
      if Decided(echo, before) {
        BodyGrows(echo, before, c);
        QuietPrefix(Body(echo, before), c, m);
      }
      EchoSetLate(o, m, echo, init);
      var r := Run(start, m, init);
      if Decided(echo, before) {
        EchoIsBehind(r, o, m, echo, before, c);
      } else {
        EchoDecides(r, o, m, echo, before, c);
      }
    }
  }

  /** A feed while the echo may still be arriving, or the first one after it was set. */
  lemma EchoDecides(r: Outcome, o: Outcome, m: seq<Byte>, echo: seq<Byte>, before: seq<Byte>, c: seq<Byte>)
    requires m != [] && r.state.done.Waiting? && r.state.echo == echo != [] && !r.state.echoStripped
    requires r.out == o.out && r.state.pending == before && r.state.exitCode == o.state.exitCode
    requires Decided(echo, before + c) ==> Quiet(Body(echo, before + c), m)
    ensures Strips(Step(r, m, c), o, echo, before + c)
  {
    hide FirstResult, Withhold, Quiet, Conclude;
    if Decided(echo, before + c) {
      var data := Body(echo, before + c);
      assert [] + data == data;
      ScanWithholds(m, [], data);
      var w := Withhold(data, m);
      assert (r.out + w.visible) + w.pending == r.out + data;
    }
  }

  /** A feed once the echo is settled. */
  lemma EchoIsBehind(r: Outcome, o: Outcome, m: seq<Byte>, echo: seq<Byte>, before: seq<Byte>, c: seq<Byte>)
    requires m != [] && Decided(echo, before) && Strips(r, o, echo, before)
    requires Quiet(Body(echo, before + c), m)
    ensures Strips(Step(r, m, c), o, echo, before + c)
  {
    hide Feed, Quiet, Decided, Body;
    BodyGrows(echo, before, c);
    var shown := r.out[|o.out|..];
    assert r.out == o.out + shown;
    assert shown + r.state.pending == Body(echo, before) by {
      assert (r.out + r.state.pending)[|o.out|..] == shown + r.state.pending;
      assert (o.out + Body(echo, before))[|o.out|..] == Body(echo, before);
    }
    StepFlows(r, m, shown, c);
    StepKeepsEcho(r, m, c);
    assert o.out + Body(echo, before) + c == o.out + Body(echo, before + c);
  }

  lemma StepKeepsEcho(r: Outcome, m: seq<Byte>, c: seq<Byte>)
    requires m != [] && r.state.echoStripped
    ensures Step(r, m, c).state.echo == r.state.echo && Step(r, m, c).state.echoStripped
  {
    hide FirstResult, Withhold, CarriesStatus, DigitStart, DigitLen, SpaceLen, DropLineEnd, IntLiteral;
  }

  /** So, when the terminal prints the echo next, it is hidden exactly when nothing was withheld
      - for withheld bytes start like a marker, and no wrapper does. */
  lemma EchoIsHiddenIff(o: Outcome, m: seq<Byte>, echo: seq<Byte>, chunks: seq<seq<Byte>>, more: seq<Byte>)
    requires GoodMarker(m) && o.state.done.Waiting? && !o.state.echoStripped && chunks != []
    requires KeptShape(o.state.pending, m) && echo != [] && echo[0] != m[0]
    requires Flatten(chunks) == echo + more && Quiet(o.state.pending + echo + more, m)
    ensures var r := Run(Outcome(WithEcho(o.state, echo), o.out), m, chunks);
      r.out + r.state.pending == o.out + if o.state.pending == [] then more else o.state.pending + echo + more
  {
    hide Run, Quiet, NoResult, Spaced;
    var p := o.state.pending;
    var fed := p + Flatten(chunks);
    assert fed == p + echo + more;
    if p == [] {
      assert fed == echo + more;
      assert Body(echo, fed) == more;
      QuietBehind(echo, more, m);
    } else {
      assert p[0] == m[0] && fed[0] == p[0];
      assert !(echo <= fed) && !(fed <= echo);
    }
    EchoSetLate(o, m, echo, chunks);
  }

  lemma QuietBehind(a: seq<Byte>, b: seq<Byte>, m: seq<Byte>)
    requires Quiet(a + b, m)
    ensures Quiet(b, m)
  {
    NoResultSuffix(a, b, m);
    SpacedSuffix(a, b, m);
  }

  /** For example: a prompt that ends in an underscore makes the whole wrapper show. */
  lemma UnderscoreShowsWrapper(hex: seq<Byte>, cap: nat, echo: seq<Byte>)
    requires forall k :: 0 <= k < |hex| ==> IsHex(hex[k])
    requires echo != [] && echo[0] != 95 && Quiet([95] + echo, MarkerFor(hex))
    ensures var m := MarkerFor(hex);
      var o := Run(Start(cap, []), m, [[95]]);
      && o.state.pending == [95]
      && var r := Run(Outcome(WithEcho(o.state, echo), o.out), m, [echo]);
      r.out + r.state.pending == [95] + echo
  {
    hide Quiet, MarkerFor, GoodMarker, Run, WithEcho, Start;
    MarkerIsGood(hex);
    MarkerStarts(hex);
    UnderscoreShows(MarkerFor(hex), cap, echo);
  }

  lemma UnderscoreShows(m: seq<Byte>, cap: nat, echo: seq<Byte>)
    requires GoodMarker(m) && |m| > 2 && m[0] == 95
    requires echo != [] && echo[0] != 95 && Quiet([95] + echo, m)
    ensures var o := Run(Start(cap, []), m, [[95]]);
      && o.state.pending == [95]
      && var r := Run(Outcome(WithEcho(o.state, echo), o.out), m, [echo]);
      r.out + r.state.pending == [95] + echo
  {
    hide Quiet, GoodMarker, Run, WithEcho, Start, KeptShape, Flatten;
    UnderscoreIsKept(m, cap);
    var o := Run(Start(cap, []), m, [[95]]);
    FlattenOne(echo);
    assert echo + [] == echo && [95] + echo + [] == [95] + echo;
    assert [] + ([95] + echo) == [95] + echo;
    EchoIsHiddenIff(o, m, echo, [echo], []);
  }

  lemma MarkerStarts(hex: seq<Byte>)
    ensures var m := MarkerFor(hex); |m| > 2 && m[0] == 95
  {
  }

  lemma UnderscoreIsKept(m: seq<Byte>, cap: nat)
    requires GoodMarker(m) && |m| > 2 && m[0] == 95
    ensures var o := Run(Start(cap, []), m, [[95]]);
      && o.state.done.Waiting? && !o.state.echoStripped && o.state.pending == [95] && o.out == []
      && KeptShape(o.state.pending, m)
  {
    var data: seq<Byte> := [95];
    assert data[0..] == m[..1];
    RunConserves(m, cap, [], [[95]]);
    FlattenOne(data);
    var o := Run(Start(cap, []), m, [[95]]);
    assert OpenAt(data, m, 0);
    assert Body([], data) == data;
    assert o.out + o.state.pending == data;
  }
}
