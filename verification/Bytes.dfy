/** Byte strings, and lists of chunks as a transport delivers them. */
module Bytes {

  type Byte = b: int | 0 <= b < 256

  /** The stream a list of chunks spells out. */
  function Flatten<T>(chunks: seq<seq<T>>): seq<T> {
    if chunks == [] then [] else Flatten(chunks[..|chunks| - 1]) + chunks[|chunks| - 1]
  }

  lemma {:induction false} FlattenAppend<T>(a: seq<seq<T>>, b: seq<seq<T>>)
    ensures Flatten(a + b) == Flatten(a) + Flatten(b)
    decreases |b|
  {
    if b == [] {
      assert a + b == a;
    } else {
      var b' := b[..|b| - 1];
      assert (a + b)[..|a + b| - 1] == a + b';
      FlattenAppend(a, b');
    }
  }

  lemma FlattenSnoc<T>(a: seq<seq<T>>, c: seq<T>)
    ensures Flatten(a + [c]) == Flatten(a) + c
  {
    assert (a + [c])[..|a|] == a;
  }

  /** The first `n` elements, or all of them when there are fewer. */
  function Take<T>(s: seq<T>, n: nat): seq<T> {
    if |s| <= n then s else s[..n]
  }

  /** The last `n` elements, or all of them when there are fewer. */
  function Last<T>(s: seq<T>, n: nat): seq<T> {
    if |s| <= n then s else s[|s| - n..]
  }

  /** Keeping a bounded tail chunk by chunk keeps the tail of the whole. */
  lemma LastOfLast<T>(s: seq<T>, c: seq<T>, n: nat)
    ensures Last(Last(s, n) + c, n) == Last(s + c, n)
  {
    if |s| > n {
      var k := |s| - n;
      assert (s + c)[k..] == s[k..] + c;
      assert Last(s, n) + c == (s + c)[k..];
      assert (s + c)[k..][|c|..] == (s + c)[k + |c|..];
    }
  }
}
