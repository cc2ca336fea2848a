/** `_Collector` itself (terminal_commands.py): fields changed in place, each method proved
    against CollectorSpec. */
module Collector {
  import opened Bytes
  import opened Options
  import opened MarkerText
  import opened CollectorSpec

  class Collector {
    const marker: seq<Byte>
    const maxOutputBytes: nat
    var done: Done
    var chunks: seq<seq<Byte>>
    var size: nat
    var truncated: bool
    var exitCode: Option<int>
    var echoToStrip: seq<Byte>
    var echoStripped: bool
    var pending: seq<Byte>

    /** The fields as one value. */
    function View(): State
      reads this
    {
      State(maxOutputBytes, chunks, size, truncated, exitCode, echoToStrip, echoStripped, pending, done)
    }

    constructor (marker: seq<Byte>, maxOutputBytes: nat, echo: seq<Byte>)
      ensures this.marker == marker
      ensures View() == Initial(maxOutputBytes, echo)
    {
      this.marker, this.maxOutputBytes := marker, maxOutputBytes;
      done, chunks, size, truncated, exitCode := Waiting, [], 0, false, None;
      echoToStrip, echoStripped, pending := echo, false, [];
    }

    /** `collector.echo_to_strip = submit` */
    method SetEcho(echo: seq<Byte>)
      modifies this`echoToStrip
      ensures View() == WithEcho(old(View()), echo)
    {
      echoToStrip := echo;
    }

    method Feed(chunk: seq<Byte>) returns (visible: seq<Byte>)
      requires marker != []
      modifies this
      ensures Outcome(View(), visible) == CollectorSpec.Feed(old(View()), marker, chunk)
    {
      if !done.Waiting? {
        return chunk;
      }
      var data := pending + chunk;
      pending := [];
      if echoToStrip != [] && !echoStripped {
        var stripped := StripEcho(data);
        if stripped.None? {
          pending := data;
          return [];
        }
        data := stripped.value;
        echoStripped := true;
      }
      visible := Scan(data);
    }

    /** The second half of `feed`: look for the result, else keep back what may become one. */
    method Scan(data: seq<Byte>) returns (visible: seq<Byte>)
      requires marker != [] && pending == []
      modifies this
      ensures Outcome(View(), visible) == CollectorSpec.Scan(old(View()), marker, data)
    {
      var index := FindResultMarker(data, marker);
      if index >= 0 {
        visible := Conclude(data, index);
      } else {
        visible := WithholdMarker(data);
        Absorb(visible);
      }
    }

    method Conclude(data: seq<Byte>, index: nat) returns (visible: seq<Byte>)
      requires index + |marker| <= |data|
      modifies this
      ensures Outcome(View(), visible) == CollectorSpec.Conclude(old(View()), marker, data, index)
    {
      visible := data[..index];
      Absorb(visible);
      var tailVisible := Finish(data[index + |marker|..]);
      visible := visible + tailVisible;
    }

    /** Sets `_pending` to what must not be shown yet and returns the rest. */
    method WithholdMarker(data: seq<Byte>) returns (visible: seq<Byte>)
      requires marker != [] && pending == []
      modifies this`pending
      ensures Split(visible, pending) == Withhold(data, marker)
    {
      visible := data;
      var possible := RFind(data, marker);
      if possible >= 0 && AllSpace(data[possible + |marker|..]) {
        pending := data[possible..];
        visible := data[..possible];
      }
      assert Split(visible, pending) == HoldMarker(data, marker);
      var keep := MarkerPrefixLen(visible, marker);
      if keep > 0 {
        pending := visible[|visible| - keep..];
        visible := visible[..|visible| - keep];
      }
    }

    method StripEcho(data: seq<Byte>) returns (rest: Option<seq<Byte>>)
      ensures rest == CollectorSpec.StripEcho(echoToStrip, data)
      ensures rest.None? <==> data < echoToStrip
    {
      if echoToStrip == [] {
        return Some(data);
      }
      if echoToStrip <= data {
        return Some(data[|echoToStrip|..]);
      }
      if data <= echoToStrip {
        return None;
      }
      return Some(data);
    }

    static method FindResultMarker(data: seq<Byte>, marker: seq<Byte>) returns (index: int)
      requires marker != []
      ensures index == FirstResult(data, marker, 0)
    {
      var start := 0;
      while true
        invariant 0 <= start <= |data|
        invariant FirstResult(data, marker, start) == FirstResult(data, marker, 0)
        decreases |data| - start
      {
        index := Find(data, marker, start);
        if index < 0 {
          return -1;
        }
        if CarriesStatus(data[index + |marker|..]) {
          return index;
        }
        start := index + |marker|;
      }
    }

    static method MarkerPrefixLen(data: seq<Byte>, marker: seq<Byte>) returns (keep: nat)
      requires marker != []
      ensures keep == PrefixLen(data, marker)
      ensures keep < |marker| && EndsInPrefix(data, marker, keep)
      ensures forall k :: keep < k < |marker| ==> !EndsInPrefix(data, marker, k)
    {
      PrefixLenIsLongest(data, marker);
      var limit := if |data| < |marker| - 1 then |data| else |marker| - 1;
      var size := limit;
      while size > 0
        invariant 0 <= size <= limit
        invariant PrefixLenFrom(data, marker, size) == PrefixLen(data, marker)
      {
        if data[|data| - size..] <= marker {
          return size;
        }
        size := size - 1;
      }
      return 0;
    }

    method Absorb(data: seq<Byte>)
      modifies this
      ensures View() == CollectorSpec.Absorb(old(View()), data)
    {
      if data == [] {
        return;
      }
      var room := maxOutputBytes - size;
      if room <= 0 {
        truncated := true;
        return;
      }
      if |data| > room {
        chunks := chunks + [data[..room]];
        size := size + room;
        truncated := true;
        return;
      }
      chunks := chunks + [data];
      size := size + |data|;
    }

    method Finish(tail: seq<Byte>) returns (rest: seq<Byte>)
      modifies this
      ensures Outcome(View(), rest) == CollectorSpec.Finish(old(View()), tail)
    {
      hide CarriesStatus, SpaceLen, DigitLen, DropLineEnd, DecimalValue;
      rest := [];
      if CarriesStatus(tail) {
        var d := DigitStart(tail);
        var n := DigitLen(tail[d..]);
        DigitLenSplits(tail[d..]);
        var value := IntLiteral(d > SpaceLen(tail), tail[d..][..n]);
        if value.Some? {
          exitCode := value;
        }
        rest := DropLineEnd(tail[d + n..]);
      }
      if done.Waiting? {
        done := Finished;
      }
    }

    method Flush() returns (released: seq<Byte>)
      modifies this`pending
      ensures released == old(pending) && View() == old(View()).(pending := [])
    {
      released, pending := pending, [];
    }

    method Fail()
      modifies this`done
      ensures View() == old(View()).(done := if old(done).Waiting? then Failed else old(done))
    {
      if done.Waiting? {
        done := Failed;
      }
    }
  }
}
