/** The exit status in figures: printed numbers are read back as themselves, end to end. */
module CollectorStatus {
  import opened Bytes
  import opened Options
  import opened MarkerText
  import opened CollectorSpec
  import opened CollectorRuns
  import opened CollectorTheorems

  // ---- printing ----

  /** `%d` of a natural number. */
  function Printed(n: nat): seq<Byte> {
    if n < 10 then [48 + n] else Printed(n / 10) + [48 + n % 10]
  }

  /** `%d` of any number. */
  function Shown(n: int): seq<Byte> {
    if n < 0 then [45] + Printed(-n) else Printed(n)
  }

  function Zeros(k: nat): seq<Byte> { seq(k, _ => 48) }

  // ---- reading undoes printing ----

  lemma {:induction false} PrintedReads(n: nat)
    ensures AllDigits(Printed(n)) && Printed(n) != []
    ensures DecimalValue(Printed(n)) == n
  {
    if n < 10 {
      assert Printed(n)[..0] == [];
    } else {
      PrintedReads(n / 10);
      assert Printed(n)[..|Printed(n)| - 1] == Printed(n / 10);
    }
  }

  lemma {:induction false} ZerosRead(k: nat, d: seq<Byte>)
    requires AllDigits(d)
    ensures AllDigits(Zeros(k) + d) && DecimalValue(Zeros(k) + d) == DecimalValue(d)
    decreases k + |d|
  {
    var all := Zeros(k) + d;
    if d != [] {
      assert all[..|all| - 1] == Zeros(k) + d[..|d| - 1];
      ZerosRead(k, d[..|d| - 1]);
    } else if k > 0 {
      assert all[..|all| - 1] == Zeros(k - 1) + [];
      ZerosRead(k - 1, []);
    }
  }

  /** How many zeros a string of digits has in front of its number. */
  function LeadingZeros(d: seq<Byte>): (k: nat)
    requires d != []
    ensures k < |d|
  {
    if |d| > 1 && d[0] == 48 then 1 + LeadingZeros(d[1..]) else 0
  }

  lemma {:induction false} PrintedTail(d: seq<Byte>)
    requires AllDigits(d) && d != [] && (|d| > 1 ==> d[0] != 48)
    ensures DecimalValue(d) >= 0 && (|d| > 1 ==> DecimalValue(d) >= 1)
    ensures d == Printed(DecimalValue(d))
  {
    var init := d[..|d| - 1];
    assert d == init + [d[|d| - 1]];
    if |d| > 1 {
      PrintedTail(init);
      assert DecimalValue(init) >= 1 by {
        if |init| == 1 { assert init[..0] == [] && DecimalValue(init) == init[0] - 48; }
      }
      var v := DecimalValue(d);
      assert v == 10 * DecimalValue(init) + (d[|d| - 1] - 48);
      assert v / 10 == DecimalValue(init) && v % 10 == d[|d| - 1] - 48;
    } else {
      assert init == [];
    }
  }

  lemma {:induction false} ZerosInFront(d: seq<Byte>)
    requires AllDigits(d) && d != []
    ensures var k := LeadingZeros(d); d[..k] == Zeros(k) && (|d[k..]| > 1 ==> d[k] != 48)
  {
    if |d| > 1 && d[0] == 48 {
      ZerosInFront(d[1..]);
      var k := LeadingZeros(d[1..]);
      assert d[..k + 1] == [d[0]] + d[1..][..k];
      assert d[k + 1..] == d[1..][k..];
    }
  }

  /** Every string of digits is zeros and the print of the number it is read as. */
  lemma DigitsSpellTheirNumber(d: seq<Byte>)
    requires AllDigits(d) && d != []
    ensures DecimalValue(d) >= 0 && d == Zeros(LeadingZeros(d)) + Printed(DecimalValue(d))
  {
    hide Printed, DecimalValue, LeadingZeros, Zeros;
    var k := LeadingZeros(d);
    ZerosInFront(d);
    var tail := d[k..];
    assert d == d[..k] + tail;
    PrintedTail(tail);
    ZerosRead(k, tail);
    assert d == Zeros(k) + tail;
  }

  /** So `int()` reads a literal of up to 4300 digits as the number printed, sign included, and
      refuses a longer one. */
  lemma LiteralReadBack(negative: bool, zeros: nat, n: nat)
    ensures var digits, value: int := Zeros(zeros) + Printed(n), if negative then 0 - n else n;
      && AllDigits(digits)
      && IntLiteral(negative, digits) == if |digits| <= 4300 then Some(value) else None
  {
    PrintedReads(n);
    ZerosRead(zeros, Printed(n));
  }

  // ---- end to end ----

  /** The main theorem in figures. Output without a marker out of place, the marker, whitespace,
      any number, and a rest that does not go on with a digit: however the stream is cut, as
      long as the number comes in chunk `last`, the exit status is that number, on `last` and
      not before, and the agent's copy is the first `cap` bytes of the output. */
  lemma {:induction false} StatusInAnyChunking(
      m: seq<Byte>, cap: nat, echo: seq<Byte>,
      before: seq<seq<Byte>>, last: seq<Byte>, after: seq<seq<Byte>>,
      a: seq<Byte>, w: seq<Byte>, n: int, rest: seq<Byte>)
    requires GoodMarker(m) && NoResult(a, m) && Spaced(a + m, m)
    requires forall b :: b in w ==> b == 32 || 9 <= b <= 13
    requires rest == [] || !(48 <= rest[0] <= 57)
    requires |Printed(Size(n))| <= 4300
    requires Decided(echo, Flatten(before) + last)
    requires Body(echo, Flatten(before) + last) == a + m + (w + Shown(n) + rest)
    requires Decided(echo, Flatten(before)) ==> |Body(echo, Flatten(before))| <= |a + m + w|
    ensures Run(Start(cap, echo), m, before).state.done == Waiting
    ensures var end := Run(Start(cap, echo), m, before + [last]).state;
      && end.done == Finished && end.exitCode == Some(n)
      && Flatten(end.chunks) == (if |a| <= cap then a else a[..cap]) && (end.truncated <==> |a| > cap)
      && Run(Start(cap, echo), m, before + [last] + after)
         == Outcome(end, a + DropLineEnd(rest) + Flatten(after))
  {
    assert m != [];
    hide *;
    SpacesAre(w);
    ShownIsLiteral(n);
    NoDigitIs(rest);
    ResultInAnyChunking(m, cap, echo, before, last, after, a, w, n < 0, Printed(Size(n)), rest);
    CapturedIs(cap, echo, m, before + [last], a);
  }

  lemma SpacesAre(w: seq<Byte>)
    ensures AllSpace(w) <==> forall b :: b in w ==> b == 32 || 9 <= b <= 13
  {
    forall k | 0 <= k < |w| ensures w[k] in w {
    }
  }

  lemma NoDigitIs(rest: seq<Byte>)
    ensures rest != [] ==> (IsDigit(rest[0]) <==> 48 <= rest[0] <= 57)
  {
  }

  function Size(n: int): nat { if n < 0 then -n else n }

  lemma ShownIsLiteral(n: int)
    ensures var digits := Printed(Size(n));
      && AllDigits(digits) && digits != [] && Shown(n) == Literal(n < 0, digits)
      && (|digits| <= 4300 ==> IntLiteral(n < 0, digits) == Some(n))
  {
    hide DecimalValue, Printed;
    PrintedReads(Size(n));
  }

  lemma CapturedIs(cap: nat, echo: seq<Byte>, m: seq<Byte>, chunks: seq<seq<Byte>>, a: seq<Byte>)
    requires m != [] && Captured(Run(Start(cap, echo), m, chunks).state, a)
    ensures var end := Run(Start(cap, echo), m, chunks).state;
      Flatten(end.chunks) == (if |a| <= cap then a else a[..cap]) && (end.truncated <==> |a| > cap)
  {
    hide Run;
    CaptureIsPrefix(m, cap, echo, chunks);
  }

  /** What the wrappers print: the output of the command, a line break, the marker, the status
      and a line break, then the prompt. The browser is shown the output, its line break and
      the prompt; the status is the number. */
  lemma {:induction false} WrapperInAnyChunking(
      m: seq<Byte>, cap: nat, echo: seq<Byte>,
      before: seq<seq<Byte>>, last: seq<Byte>, after: seq<seq<Byte>>,
      output: seq<Byte>, n: int, prompt: seq<Byte>)
    requires GoodMarker(m) && NoResult(output, m) && Spaced(output, m)
    requires |Printed(Size(n))| <= 4300
    requires Decided(echo, Flatten(before) + last)
    requires Body(echo, Flatten(before) + last) == output + [13, 10] + m + Shown(n) + [13, 10] + prompt
    requires Decided(echo, Flatten(before)) ==> |Body(echo, Flatten(before))| <= |output + [13, 10] + m|
    ensures var o := Run(Start(cap, echo), m, before + [last] + after);
      && o.state.done == Finished && o.state.exitCode == Some(n)
      && o.out == output + [13, 10] + prompt + Flatten(after)
  {
    hide Run, NoResult, Spaced, Body, Decided, GoodMarker, DropLineEnd, Shown, Printed;
    WrapperMarkerIsSpaced(output, m);
    var a, rest := output + [13, 10], [13, 10] + prompt;
    assert a + m + ([] + Shown(n) + rest) == output + [13, 10] + m + Shown(n) + [13, 10] + prompt;
    assert a + m + [] == a + m;
    StatusInAnyChunking(m, cap, echo, before, last, after, a, [], n, rest);
    LineEndDropped(prompt);
  }
}
