/** The command collector of terminal_commands.py as a function on values: what one `feed`
    does to the collector's fields and what it lets through to the browser. */
module CollectorSpec {
  import opened Bytes
  import opened Options
  import opened MarkerText

  /** The `done` future. */
  datatype Done = Waiting | Finished | Failed

  datatype State = State(
    cap: nat,
    chunks: seq<seq<Byte>>,
    size: nat,
    truncated: bool,
    exitCode: Option<int>,
    echo: seq<Byte>,
    echoStripped: bool,
    pending: seq<Byte>,
    done: Done)

  datatype Outcome = Outcome(state: State, out: seq<Byte>)

  function Initial(cap: nat, echo: seq<Byte>): State {
    State(cap, [], 0, false, None, echo, false, [], Waiting)
  }

  function Absorb(s: State, data: seq<Byte>): State {
    if data == [] then s
    else if s.size >= s.cap then s.(truncated := true)
    else if |data| > s.cap - s.size then
      s.(chunks := s.chunks + [data[..s.cap - s.size]], size := s.cap, truncated := true)
    else s.(chunks := s.chunks + [data], size := s.size + |data|)
  }

  // ---- the exit status ----

  /** CPython's default limit on the digits `int()` converts; beyond it ValueError is raised,
      and the source suppresses that error. */
  const MAX_INT_DIGITS := 4300

  function DecimalValue(d: seq<Byte>): int
    requires AllDigits(d)
  {
    if d == [] then 0 else 10 * DecimalValue(d[..|d| - 1]) + (d[|d| - 1] - 48)
  }

  lemma {:induction false} DigitLenSplits(t: seq<Byte>)
    ensures AllDigits(t[..DigitLen(t)])
  {
    if t != [] && IsDigit(t[0]) {
      DigitLenSplits(t[1..]);
      forall k | 0 <= k < DigitLen(t) ensures IsDigit(t[k]) {
        if k > 0 { assert t[k] == t[1..][..DigitLen(t[1..])][k - 1]; }
      }
    }
  }

  /** `int(group)` for the group `-?\d+`, None when the conversion is refused. */
  function IntLiteral(negative: bool, digits: seq<Byte>): Option<int>
    requires AllDigits(digits)
  {
    if |digits| > MAX_INT_DIGITS then None
    else Some(if negative then -DecimalValue(digits) else DecimalValue(digits))
  }

  function DropLineEnd(t: seq<Byte>): seq<Byte> {
    if [13, 10] <= t then t[2..]
    else if t != [] && (t[0] == 10 || t[0] == 13) then t[1..]
    else t
  }

  function Finish(s: State, tail: seq<Byte>): Outcome {
    var finished := s.(done := if s.done.Waiting? then Finished else s.done);
    if CarriesStatus(tail) then
      var d := DigitStart(tail);
      var n := DigitLen(tail[d..]);
      DigitLenSplits(tail[d..]);
      var value := IntLiteral(d > SpaceLen(tail), tail[d..][..n]);
      Outcome(if value.Some? then finished.(exitCode := value) else finished, DropLineEnd(tail[d + n..]))
    else
      Outcome(finished, [])
  }

  // ---- searching and withholding ----

  /** The search loop: skip occurrences without a status, whole marker by whole marker. */
  function FirstResult(data: seq<Byte>, m: seq<Byte>, start: nat): (i: int)
    requires m != []
    ensures i == -1 || start <= i <= |data| - |m|
    decreases |data| - start
  {
    var i := Find(data, m, start);
    if i < 0 then -1
    else if CarriesStatus(data[i + |m|..]) then i
    else FirstResult(data, m, i + |m|)
  }

  /** The suffix of length `k` of `data` is a prefix of the marker. */
  predicate EndsInPrefix(data: seq<Byte>, m: seq<Byte>, k: nat) {
    k <= |data| && k <= |m| && data[|data| - k..] == m[..k]
  }

  /** Longest suffix of `data` of length at most `size` that is a prefix of `m`. */
  function PrefixLenFrom(data: seq<Byte>, m: seq<Byte>, size: nat): (k: nat)
    requires size <= |data| && size <= |m|
    ensures k <= size
  {
    if size == 0 then 0
    else if EndsInPrefix(data, m, size) then size
    else PrefixLenFrom(data, m, size - 1)
  }

  lemma {:induction false} PrefixLenFromIsLongest(data: seq<Byte>, m: seq<Byte>, size: nat)
    requires size <= |data| && size <= |m|
    ensures EndsInPrefix(data, m, PrefixLenFrom(data, m, size))
    ensures forall j :: PrefixLenFrom(data, m, size) < j <= size ==> !EndsInPrefix(data, m, j)
  {
    if size > 0 && !EndsInPrefix(data, m, size) { PrefixLenFromIsLongest(data, m, size - 1); }
  }

  function PrefixLen(data: seq<Byte>, m: seq<Byte>): (k: nat)
    requires m != []
    ensures k <= |data|
  {
    PrefixLenFrom(data, m, if |data| < |m| - 1 then |data| else |m| - 1)
  }

  /** The longest proper prefix of the marker that ends the data. */
  lemma PrefixLenIsLongest(data: seq<Byte>, m: seq<Byte>)
    requires m != []
    ensures PrefixLen(data, m) < |m| && EndsInPrefix(data, m, PrefixLen(data, m))
    ensures forall j :: PrefixLen(data, m) < j < |m| ==> !EndsInPrefix(data, m, j)
  {
    PrefixLenFromIsLongest(data, m, if |data| < |m| - 1 then |data| else |m| - 1);
  }

  /** The text ends in a complete marker with nothing but whitespace behind it. */
  predicate HoldsMarker(data: seq<Byte>, m: seq<Byte>) {
    var p := RFind(data, m);
    p >= 0 && AllSpace(data[p + |m|..])
  }

  datatype Split = Split(visible: seq<Byte>, pending: seq<Byte>)

  /** Keep back a complete marker that only whitespace follows. */
  function HoldMarker(data: seq<Byte>, m: seq<Byte>): Split {
    if HoldsMarker(data, m) then Split(data[..RFind(data, m)], data[RFind(data, m)..])
    else Split(data, [])
  }

  /** Keep back the marker prefix the visible text ends in. The kept bytes replace what was
      kept before, as in the source. */
  function HoldPrefix(w: Split, m: seq<Byte>): Split
    requires m != []
  {
    var keep := PrefixLen(w.visible, m);
    if keep > 0 then Split(w.visible[..|w.visible| - keep], w.visible[|w.visible| - keep..]) else w
  }

  /** What is released and what is kept back when the data carries no result. */
  function Withhold(data: seq<Byte>, m: seq<Byte>): Split
    requires m != []
  {
    HoldPrefix(HoldMarker(data, m), m)
  }

  /** The result is at `r`: what precedes it is output, what follows is the status line. */
  function Conclude(s: State, m: seq<Byte>, data: seq<Byte>, r: nat): Outcome
    requires r + |m| <= |data|
  {
    var f := Finish(Absorb(s, data[..r]), data[r + |m|..]);
    Outcome(f.state, data[..r] + f.out)
  }

  function Scan(s: State, m: seq<Byte>, data: seq<Byte>): Outcome
    requires m != []
  {
    var r := FirstResult(data, m, 0);
    if r >= 0 then Conclude(s, m, data, r)
    else
      var w := Withhold(data, m);
      Outcome(Absorb(s.(pending := w.pending), w.visible), w.visible)
  }

  /** `run_command` sets the echo only after the collector is in place and two notifications
      have been awaited, so output may have been fed by then. */
  function WithEcho(s: State, echo: seq<Byte>): State { s.(echo := echo) }

  /** `_strip_echo`: the data behind the wrapper echo, None while it may still be arriving. */
  function StripEcho(echo: seq<Byte>, data: seq<Byte>): Option<seq<Byte>> {
    if echo <= data then Some(data[|echo|..])
    else if data <= echo then None
    else Some(data)
  }

  /** What a `feed` scans: the withheld bytes and the chunk, behind the echo. */
  function Incoming(s: State, chunk: seq<Byte>): Option<seq<Byte>> {
    if s.echo == [] || s.echoStripped then Some(s.pending + chunk)
    else StripEcho(s.echo, s.pending + chunk)
  }

  /** One call of `feed`. */
  function Feed(s: State, m: seq<Byte>, chunk: seq<Byte>): Outcome
    requires m != []
  {
    if !s.done.Waiting? then Outcome(s, chunk)
    else
      match Incoming(s, chunk)
      case None => Outcome(s.(pending := s.pending + chunk), [])
      case Some(data) => Scan(s.(pending := [], echoStripped := s.echoStripped || s.echo != []), m, data)
  }

  /** One more `feed`, with everything returned so far collected in `out`. */
  function Step(o: Outcome, m: seq<Byte>, chunk: seq<Byte>): Outcome
    requires m != []
  {
    var fed := Feed(o.state, m, chunk);
    Outcome(fed.state, o.out + fed.out)
  }

  function Start(cap: nat, echo: seq<Byte>): Outcome {
    Outcome(Initial(cap, echo), [])
  }

  /** A whole sequence of `feed` calls. */
  function Run(o: Outcome, m: seq<Byte>, chunks: seq<seq<Byte>>): Outcome
    requires m != []
  {
    if chunks == [] then o
    else Step(Run(o, m, chunks[..|chunks| - 1]), m, chunks[|chunks| - 1])
  }
}
