/** The byte-level vocabulary of the command collector (terminal_commands.py): literal
    search, the status pattern after a marker, and what a marker can do to its neighbours. */
module MarkerText {
  import opened Bytes

  // ---- character classes of the byte patterns ----

  predicate IsSpace(b: Byte) { b == 32 || 9 <= b <= 13 }

  predicate IsDigit(b: Byte) { 48 <= b <= 57 }

  const DASH: Byte := 45

  predicate AllSpace(t: seq<Byte>) { forall k :: 0 <= k < |t| ==> IsSpace(t[k]) }

  predicate AllDigits(t: seq<Byte>) { forall k :: 0 <= k < |t| ==> IsDigit(t[k]) }

  function SpaceLen(t: seq<Byte>): (n: nat)
    ensures n <= |t|
  {
    if t != [] && IsSpace(t[0]) then 1 + SpaceLen(t[1..]) else 0
  }

  function DigitLen(t: seq<Byte>): (n: nat)
    ensures n <= |t|
  {
    if t != [] && IsDigit(t[0]) then 1 + DigitLen(t[1..]) else 0
  }

  /** Where the digits of `\s*-?\d+` would start. */
  function DigitStart(t: seq<Byte>): (n: nat)
    ensures SpaceLen(t) <= n <= |t|
  {
    var s := SpaceLen(t);
    if s < |t| && t[s] == DASH then s + 1 else s
  }

  /** `re.match(rb"\s*-?\d+", t)`: leading whitespace is skipped one byte at a time. */
  predicate CarriesStatus(t: seq<Byte>) {
    if t == [] then false
    else if IsSpace(t[0]) then CarriesStatus(t[1..])
    else if t[0] == DASH then |t| > 1 && IsDigit(t[1])
    else IsDigit(t[0])
  }

  lemma {:induction false} CarriesStatusAtDigit(t: seq<Byte>)
    ensures CarriesStatus(t) <==> DigitStart(t) < |t| && IsDigit(t[DigitStart(t)])
  {
    if t != [] && IsSpace(t[0]) {
      CarriesStatusAtDigit(t[1..]);
      assert DigitStart(t) == DigitStart(t[1..]) + 1;
      assert DigitStart(t) < |t| ==> t[DigitStart(t)] == t[1..][DigitStart(t[1..])];
    }
  }

  lemma {:induction false} SpaceLenOf(w: seq<Byte>, t: seq<Byte>)
    requires AllSpace(w) && (t == [] || !IsSpace(t[0]))
    ensures SpaceLen(w + t) == |w|
  {
    if w == [] {
      assert w + t == t;
    } else {
      assert (w + t)[1..] == w[1..] + t;
      SpaceLenOf(w[1..], t);
    }
  }

  lemma {:induction false} DigitLenOf(d: seq<Byte>, t: seq<Byte>)
    requires AllDigits(d) && (t == [] || !IsDigit(t[0]))
    ensures DigitLen(d + t) == |d|
  {
    if d == [] {
      assert d + t == t;
    } else {
      assert (d + t)[1..] == d[1..] + t;
      DigitLenOf(d[1..], t);
    }
  }

  /** The status pattern read off a prefix is read off every extension too. */
  lemma {:induction false} CarriesStatusExtends(t: seq<Byte>, u: seq<Byte>)
    requires CarriesStatus(t)
    ensures CarriesStatus(t + u)
  {
    if IsSpace(t[0]) {
      assert (t + u)[1..] == t[1..] + u;
      CarriesStatusExtends(t[1..], u);
    }
  }

  /** A byte that is no space, digit or sign ends the search for a status. */
  lemma {:induction false} PlainByteBlocksStatus(t: seq<Byte>, u: seq<Byte>)
    requires u != [] && !IsSpace(u[0]) && !IsDigit(u[0]) && u[0] != DASH
    ensures CarriesStatus(t + u) ==> CarriesStatus(t)
  {
    if t == [] {
      assert t + u == u;
    } else if IsSpace(t[0]) {
      assert (t + u)[1..] == t[1..] + u;
      PlainByteBlocksStatus(t[1..], u);
    }
  }

  lemma {:induction false} SpaceCarriesNothing(t: seq<Byte>)
    requires AllSpace(t)
    ensures !CarriesStatus(t)
  {
    if t != [] { SpaceCarriesNothing(t[1..]); }
  }

  /** Whitespace, an optional sign and a digit: a status. */
  lemma {:induction false} StatusAfterSpace(w: seq<Byte>, t: seq<Byte>)
    requires AllSpace(w)
    ensures CarriesStatus(w + t) == CarriesStatus(t)
  {
    if w == [] {
      assert w + t == t;
    } else {
      assert (w + t)[1..] == w[1..] + t;
      StatusAfterSpace(w[1..], t);
    }
  }

  // ---- literal search ----

  predicate OccursAt(data: seq<Byte>, m: seq<Byte>, i: int) {
    0 <= i && i + |m| <= |data| && data[i..i + |m|] == m
  }

  /** An occurrence of the marker that carries an exit status. */
  predicate ResultAt(data: seq<Byte>, m: seq<Byte>, i: int) {
    OccursAt(data, m, i) && CarriesStatus(data[i + |m|..])
  }

  /** `bytes.find`: the leftmost occurrence from `start` on, or -1. */
  function Find(data: seq<Byte>, m: seq<Byte>, start: nat): (i: int)
    ensures i == -1 || start <= i <= |data| - |m|
    decreases |data| - start
  {
    if start + |m| > |data| then -1
    else if OccursAt(data, m, start) then start
    else Find(data, m, start + 1)
  }

  lemma {:induction false} FindIsLeftmost(data: seq<Byte>, m: seq<Byte>, start: nat)
    ensures Find(data, m, start) == -1 || OccursAt(data, m, Find(data, m, start))
    ensures forall j :: start <= j && (Find(data, m, start) == -1 || j < Find(data, m, start)) ==>
      !OccursAt(data, m, j)
    decreases |data| - start
  {
    if start + |m| <= |data| && !OccursAt(data, m, start) {
      FindIsLeftmost(data, m, start + 1);
    }
  }

  /** `bytes.rfind`: the rightmost occurrence at or before `from`, or -1. */
  function RFindFrom(data: seq<Byte>, m: seq<Byte>, from: int): (i: int)
    requires from >= -1
    ensures i == -1 || (0 <= i <= from && i + |m| <= |data|)
    decreases from
  {
    if from < 0 then -1
    else if OccursAt(data, m, from) then from
    else RFindFrom(data, m, from - 1)
  }

  function RFind(data: seq<Byte>, m: seq<Byte>): int {
    RFindFrom(data, m, |data|)
  }

  lemma {:induction false} RFindFromIsRightmost(data: seq<Byte>, m: seq<Byte>, from: int)
    requires from >= -1
    ensures RFindFrom(data, m, from) == -1 || OccursAt(data, m, RFindFrom(data, m, from))
    ensures forall j :: RFindFrom(data, m, from) < j <= from ==> !OccursAt(data, m, j)
    decreases from
  {
    if from >= 0 && !OccursAt(data, m, from) {
      RFindFromIsRightmost(data, m, from - 1);
    }
  }

  lemma RFindIsRightmost(data: seq<Byte>, m: seq<Byte>)
    ensures RFind(data, m) == -1 || OccursAt(data, m, RFind(data, m))
    ensures forall j :: RFind(data, m) < j ==> !OccursAt(data, m, j)
  {
    RFindFromIsRightmost(data, m, |data|);
  }

  ghost predicate NoResult(data: seq<Byte>, m: seq<Byte>) {
    forall i :: !ResultAt(data, m, i)
  }

  /** No occurrence of the marker stands directly behind a non-empty proper prefix of it. */
  ghost predicate Spaced(data: seq<Byte>, m: seq<Byte>) {
    forall i, k :: OccursAt(data, m, i) && 1 <= k < |m| && k <= i ==> data[i - k..i] != m[..k]
  }

  /** What every generated marker satisfies: see MarkerIsGood. */
  predicate GoodMarker(m: seq<Byte>) {
    && m != []
    && (forall k :: 0 <= k < |m| ==> !IsSpace(m[k]))
    && !IsDigit(m[0]) && m[0] != DASH
  }

  /** The undecided markers the collector holds back: cut off by the end of the data, or
      complete with nothing but whitespace behind them. MayCompleteIff says what is missing. */
  predicate OpenAt(data: seq<Byte>, m: seq<Byte>, i: int) {
    || (0 <= i < |data| && |data| - i < |m| && data[i..] == m[..|data| - i])
    || (OccursAt(data, m, i) && AllSpace(data[i + |m|..]))
  }

  /** Whitespace and a sign that still waits for its first digit. */
  predicate LoneSign(t: seq<Byte>) {
    t != [] && t[|t| - 1] == DASH && AllSpace(t[..|t| - 1])
  }

  /** A marker with nothing but whitespace and a sign behind it, at the end of the data. */
  predicate SignedAt(data: seq<Byte>, m: seq<Byte>, i: int) {
    OccursAt(data, m, i) && LoneSign(data[i + |m|..])
  }

  /** Start of a marker that some later input would make a result. */
  ghost predicate MayComplete(data: seq<Byte>, m: seq<Byte>, i: int) {
    0 <= i < |data| && exists more :: ResultAt(data + more, m, i)
  }

  /** Only whitespace, alone or with a sign, can still become a status. */
  lemma {:induction false} StatusNeeds(t: seq<Byte>, u: seq<Byte>)
    requires CarriesStatus(t + u)
    ensures CarriesStatus(t) || AllSpace(t) || LoneSign(t)
    ensures LoneSign(t) ==> u != [] && IsDigit(u[0])
  {
    if t != [] && IsSpace(t[0]) {
      assert (t + u)[1..] == t[1..] + u;
      StatusNeeds(t[1..], u);
      assert t == [t[0]] + t[1..];
      if LoneSign(t[1..]) { assert t[..|t| - 1] == [t[0]] + t[1..][..|t| - 2]; }
    } else if t != [] {
      assert (t + u)[0] == t[0];
      if |t| > 1 { assert (t + u)[1] == t[1] && t[..|t| - 1][0] == t[0]; }
    }
  }

  lemma StatusCompletes(t: seq<Byte>)
    requires AllSpace(t) || LoneSign(t)
    ensures CarriesStatus(t + [48])
  {
    if AllSpace(t) {
      StatusAfterSpace(t, [48]);
    } else {
      var w := t[..|t| - 1];
      assert t + [48] == w + [DASH, 48];
      StatusAfterSpace(w, [DASH, 48]);
    }
  }

  /** What may still complete: a result, a marker cut off by the end of the data or followed
      by whitespace only, and a marker followed by whitespace and a sign. */
  lemma MayCompleteIff(data: seq<Byte>, m: seq<Byte>, i: int)
    requires m != []
    ensures MayComplete(data, m, i) <==> ResultAt(data, m, i) || OpenAt(data, m, i) || SignedAt(data, m, i)
  {
    if MayComplete(data, m, i) {
      var more :| ResultAt(data + more, m, i);
      CompletedBy(data, more, m, i);
    }
    if ResultAt(data, m, i) {
      assert data + [] == data;
    } else if OpenAt(data, m, i) || SignedAt(data, m, i) {
      var more := if OccursAt(data, m, i) then [48] else m[|data| - i..] + [48];
      Completes(data, m, i);
      assert ResultAt(data + more, m, i);
    }
  }

  lemma CompletedBy(data: seq<Byte>, more: seq<Byte>, m: seq<Byte>, i: int)
    requires 0 <= i < |data| && ResultAt(data + more, m, i)
    ensures ResultAt(data, m, i) || OpenAt(data, m, i) || SignedAt(data, m, i)
  {
    var all := data + more;
    if i + |m| <= |data| {
      OccursInPrefix(data, more, m, i);
      assert all[i + |m|..] == data[i + |m|..] + more;
      StatusNeeds(data[i + |m|..], more);
    } else {
      assert data[i..] == all[i..i + |m|][..|data| - i];
    }
  }

  lemma Completes(data: seq<Byte>, m: seq<Byte>, i: int)
    requires m != [] && (OpenAt(data, m, i) || SignedAt(data, m, i))
    ensures ResultAt(data + if OccursAt(data, m, i) then [48] else m[|data| - i..] + [48], m, i)
  {
    if OccursAt(data, m, i) {
      OccursInPrefix(data, [48], m, i);
      assert (data + [48])[i + |m|..] == data[i + |m|..] + [48];
      StatusCompletes(data[i + |m|..]);
    } else {
      var all := data + (m[|data| - i..] + [48]);
      assert all[i..i + |m|] == data[i..] + m[|data| - i..] == m;
      assert all[i + |m|..] == [48];
    }
  }

  // ---- how these behave on prefixes and suffixes ----

  lemma OccursInPrefix(a: seq<Byte>, b: seq<Byte>, m: seq<Byte>, i: int)
    ensures OccursAt(a, m, i) ==> OccursAt(a + b, m, i)
    ensures OccursAt(a + b, m, i) && i + |m| <= |a| ==> OccursAt(a, m, i)
  {
    if 0 <= i && i + |m| <= |a| {
      assert (a + b)[i..i + |m|] == a[i..i + |m|];
    }
  }

  lemma OccursInSuffix(a: seq<Byte>, b: seq<Byte>, m: seq<Byte>, i: int)
    requires i >= 0
    ensures OccursAt(b, m, i) <==> OccursAt(a + b, m, |a| + i)
  {
    if i + |m| <= |b| {
      assert (a + b)[|a| + i..|a| + i + |m|] == b[i..i + |m|];
    }
  }

  lemma ResultInSuffix(a: seq<Byte>, b: seq<Byte>, m: seq<Byte>, i: int)
    requires i >= 0
    ensures ResultAt(b, m, i) <==> ResultAt(a + b, m, |a| + i)
  {
    OccursInSuffix(a, b, m, i);
    if i + |m| <= |b| {
      assert (a + b)[|a| + i + |m|..] == b[i + |m|..];
    }
  }

  /** A result stays a result when more input follows. */
  lemma ResultExtends(a: seq<Byte>, b: seq<Byte>, m: seq<Byte>, i: int)
    ensures ResultAt(a, m, i) ==> ResultAt(a + b, m, i)
  {
    if ResultAt(a, m, i) {
      OccursInPrefix(a, b, m, i);
      assert (a + b)[i + |m|..] == a[i + |m|..] + b;
      CarriesStatusExtends(a[i + |m|..], b);
    }
  }

  lemma NoResultPrefix(a: seq<Byte>, b: seq<Byte>, m: seq<Byte>)
    requires NoResult(a + b, m)
    ensures NoResult(a, m)
  {
    forall i ensures !ResultAt(a, m, i) { ResultExtends(a, b, m, i); }
  }

  lemma NoResultSuffix(a: seq<Byte>, b: seq<Byte>, m: seq<Byte>)
    requires NoResult(a + b, m)
    ensures NoResult(b, m)
  {
    forall i ensures !ResultAt(b, m, i) {
      if ResultAt(b, m, i) { ResultInSuffix(a, b, m, i); }
    }
  }

  lemma SpacedPrefix(a: seq<Byte>, b: seq<Byte>, m: seq<Byte>)
    requires Spaced(a + b, m)
    ensures Spaced(a, m)
  {
    forall i, k | OccursAt(a, m, i) && 1 <= k < |m| && k <= i ensures a[i - k..i] != m[..k] {
      OccursInPrefix(a, b, m, i);
      assert (a + b)[i - k..i] == a[i - k..i];
    }
  }

  lemma SpacedSuffix(a: seq<Byte>, b: seq<Byte>, m: seq<Byte>)
    requires Spaced(a + b, m)
    ensures Spaced(b, m)
  {
    forall i, k | OccursAt(b, m, i) && 1 <= k < |m| && k <= i ensures b[i - k..i] != m[..k] {
      OccursInSuffix(a, b, m, i);
      assert OccursAt(a + b, m, |a| + i);
      assert (a + b)[|a| + i - k..|a| + i] == b[i - k..i];
    }
  }

  /** Overlapping occurrences break the spacing: the second stands behind a marker prefix. */
  lemma OverlapIsNotSpaced(data: seq<Byte>, m: seq<Byte>, i: int, j: int)
    requires OccursAt(data, m, i) && OccursAt(data, m, j) && i < j < i + |m|
    ensures !Spaced(data[..j + |m|], m)
  {
    var d, k := data[..j + |m|], j - i;
    assert data[i..i + |m|][..k] == m[..k];
    assert d[j - k..j] == data[i..i + |m|][..k];
    assert OccursAt(d, m, j) by { assert d[j..j + |m|] == data[j..j + |m|]; }
  }

  /** A line break in front of every marker, as both shell wrappers print it, is enough. */
  lemma BreakBeforeMarkerIsSpaced(data: seq<Byte>, m: seq<Byte>)
    requires GoodMarker(m)
    requires forall i :: OccursAt(data, m, i) && i > 0 ==> IsSpace(data[i - 1])
    ensures Spaced(data, m)
  {
    forall i, k | OccursAt(data, m, i) && 1 <= k < |m| && k <= i ensures data[i - k..i] != m[..k] {
      assert data[i - 1] == data[i - k..i][k - 1];
      assert m[k - 1] == m[..k][k - 1];
    }
  }

  /** What either wrapper prints before its status: the output of the command, which holds no
      marker out of place, a line break, and the marker. */
  lemma WrapperMarkerIsSpaced(output: seq<Byte>, m: seq<Byte>)
    requires GoodMarker(m) && NoResult(output, m) && Spaced(output, m)
    ensures NoResult(output + [13, 10], m) && Spaced(output + [13, 10] + m, m)
  {
    var a := output + [13, 10];
    forall i ensures !ResultAt(a, m, i) {
      if OccursAt(a, m, i) {
        OccursBeforeBreak(output, m, [], i);
        assert !ResultAt(output, m, i);
        assert a[i + |m|..] == output[i + |m|..] + [13, 10];
        if CarriesStatus(a[i + |m|..]) { BreakAddsNoStatus(output[i + |m|..]); }
      }
    }
    forall i, k | OccursAt(a + m, m, i) && 1 <= k < |m| && k <= i ensures (a + m)[i - k..i] != m[..k] {
      OccursBeforeBreak(output, m, m, i);
      if i == |a| {
        assert (a + m)[i - k..i][k - 1] == 10;
      } else {
        assert (a + m)[i - k..i] == output[i - k..i];
      }
    }
  }

  lemma NoSpaceInside(data: seq<Byte>, m: seq<Byte>, i: int, j: int)
    requires GoodMarker(m) && 0 <= i <= j < i + |m| && j < |data| && IsSpace(data[j])
    ensures !OccursAt(data, m, i)
  {
    if i + |m| <= |data| { assert data[i..i + |m|][j - i] == data[j]; }
  }

  /** No marker reaches across a line break. */
  lemma OccursBeforeBreak(output: seq<Byte>, m: seq<Byte>, after: seq<Byte>, i: int)
    requires GoodMarker(m) && |after| <= |m| && OccursAt(output + [13, 10] + after, m, i)
    ensures OccursAt(output, m, i) || i == |output| + 2
  {
    var all := output + [13, 10] + after;
    assert all == output + ([13, 10] + after);
    assert all[|output|] == 13 && all[|output| + 1] == 10;
    if i <= |output| < i + |m| { NoSpaceInside(all, m, i, |output|); }
    if i <= |output| + 1 < i + |m| { NoSpaceInside(all, m, i, |output| + 1); }
    OccursInPrefix(output, [13, 10] + after, m, i);
  }

  lemma BreakAddsNoStatus(t: seq<Byte>)
    requires CarriesStatus(t + [13, 10])
    ensures CarriesStatus(t)
  {
    StatusNeeds(t, [13, 10]);
    if AllSpace(t) { SpaceCarriesNothing(t + [13, 10]); }
  }

  // ---- the marker of one command ----

  predicate IsHex(b: Byte) { IsDigit(b) || 97 <= b <= 102 }

  /** `__AGENT_CMD_<hex>__` */
  function MarkerFor(hex: seq<Byte>): seq<Byte> {
    [95, 95, 65, 71, 69, 78, 84, 95, 67, 77, 68, 95] + hex + [95, 95]
  }

  function Ascii(s: string): seq<Byte>
    requires forall i :: 0 <= i < |s| ==> s[i] < '\U{80}'
  {
    seq(|s|, i requires 0 <= i < |s| => s[i] as int)
  }

  lemma MarkerIsGood(hex: seq<Byte>)
    requires forall k :: 0 <= k < |hex| ==> IsHex(hex[k])
    ensures GoodMarker(MarkerFor(hex)) && DASH !in MarkerFor(hex)
    ensures MarkerFor(hex) == Ascii("__AGENT_CMD_") + hex + Ascii("__")
  {
    var m := MarkerFor(hex);
    forall k | 0 <= k < |m| ensures !IsSpace(m[k]) && m[k] != DASH {
      if 12 <= k < 12 + |hex| { assert m[k] == hex[k - 12]; }
    }
  }
}
