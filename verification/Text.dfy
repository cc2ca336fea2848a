/** The string operations the sources lean on, as Python defines them for `str`. */
module Text {

  /** `str.isspace` for one character; also `\s` in a text pattern. */
  predicate IsSpace(c: char) {
    || '\t' <= c <= '\r' || '\U{1c}' <= c <= ' '
    || c == '\U{85}' || c == '\U{a0}' || c == '\U{1680}'
    || '\U{2000}' <= c <= '\U{200a}' || '\U{2028}' <= c <= '\U{2029}'
    || c == '\U{202f}' || c == '\U{205f}' || c == '\U{3000}'
  }

  function StripLeft(s: string): string {
    if s != [] && IsSpace(s[0]) then StripLeft(s[1..]) else s
  }

  function StripRight(s: string): string {
    if s != [] && IsSpace(s[|s| - 1]) then StripRight(s[..|s| - 1]) else s
  }

  /** `str.strip()` */
  function Strip(s: string): string {
    StripRight(StripLeft(s))
  }

  /** The ASCII characters that count as whitespace. */
  lemma AsciiSpaces(c: char)
    requires c < '\U{80}'
    ensures IsSpace(c) <==> c in "\t\n\U{0b}\U{0c}\r \U{1c}\U{1d}\U{1e}\U{1f}"
  {
  }

  /** `s[i..j]` is `s` without the whitespace at both ends. */
  ghost predicate IsCore(s: string, i: nat, j: nat) {
    && i <= j <= |s|
    && (forall k :: 0 <= k < i || j <= k < |s| ==> IsSpace(s[k]))
    && (i < j ==> !IsSpace(s[i]) && !IsSpace(s[j - 1]))
  }

  function LeftSpace(s: string): (n: nat)
    ensures n <= |s|
  {
    if s != [] && IsSpace(s[0]) then 1 + LeftSpace(s[1..]) else 0
  }

  function RightEnd(s: string): (n: nat)
    ensures n <= |s|
  {
    if s != [] && IsSpace(s[|s| - 1]) then RightEnd(s[..|s| - 1]) else |s|
  }

  lemma {:induction false} StripLeftIs(s: string)
    ensures var n := LeftSpace(s);
      && StripLeft(s) == s[n..] && (forall k :: 0 <= k < n ==> IsSpace(s[k]))
      && (n < |s| ==> !IsSpace(s[n]))
  {
    if s != [] && IsSpace(s[0]) {
      StripLeftIs(s[1..]);
      var n := LeftSpace(s);
      assert s[1..][n - 1..] == s[n..];
      forall k | 0 <= k < n ensures IsSpace(s[k]) { assert k > 0 ==> s[k] == s[1..][k - 1]; }
    }
  }

  lemma {:induction false} StripRightIs(s: string)
    ensures var n := RightEnd(s);
      && StripRight(s) == s[..n] && (forall k :: n <= k < |s| ==> IsSpace(s[k]))
      && (n > 0 ==> !IsSpace(s[n - 1]))
  {
    if s != [] && IsSpace(s[|s| - 1]) {
      StripRightIs(s[..|s| - 1]);
      assert s[..|s| - 1][..RightEnd(s)] == s[..RightEnd(s)];
    }
  }

  /** `str.strip` drops the whitespace at both ends and nothing else. */
  lemma StripIs(s: string) returns (i: nat, j: nat)
    ensures IsCore(s, i, j) && Strip(s) == s[i..j]
  {
    hide StripLeft, StripRight;
    StripLeftIs(s);
    i := LeftSpace(s);
    var t := s[i..];
    StripRightIs(t);
    j := i + RightEnd(t);
    assert s[i..][..j - i] == s[i..j];
    forall k | 0 <= k < i || j <= k < |s| ensures IsSpace(s[k]) {
      if k >= j { assert s[k] == t[k - i]; }
    }
    if i < j {
      assert s[j - 1] == t[j - 1 - i] && s[i] == t[0];
    }
  }

  /** Whitespace, a core, whitespace: the core is what is left. */
  lemma StripCore(a: string, core: string, b: string)
    requires forall c :: c in a || c in b ==> IsSpace(c)
    requires core != [] ==> !IsSpace(core[0]) && !IsSpace(core[|core| - 1])
    ensures Strip(a + core + b) == core
  {
    hide Strip, IsSpace;
    var s := a + core + b;
    var i, j := StripIs(s);
    forall k | 0 <= k < |a| || |a| + |core| <= k < |s| ensures IsSpace(s[k]) {
      assert s[k] in a || s[k] in b;
    }
    if core != [] {
      assert s[|a|] == core[0] && s[|a| + |core| - 1] == core[|core| - 1];
      assert i == |a| && j == |a| + |core|;
    } else {
      assert i == j;
    }
    assert s[i..j] == core;
  }
}
