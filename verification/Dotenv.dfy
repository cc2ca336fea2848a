/** Rewriting a dotenv file (dotenv_loader.py, `update_env_vars`): the text before, a mapping,
    and the text after. */
module Dotenv {
  import opened Options
  import opened Text

  // ---- lines ----

  /** The characters `splitlines` breaks at. */
  predicate IsBreak(c: char) {
    || '\n' <= c <= '\r' || '\U{1c}' <= c <= '\U{1e}' || c == '\U{85}'
    || c == '\U{2028}' || c == '\U{2029}'
  }

  /** They are these ten. */
  lemma LineBreaks(c: char)
    ensures IsBreak(c) <==> c in "\n\U{0b}\U{0c}\r\U{1c}\U{1d}\U{1e}\U{85}\U{2028}\U{2029}"
  {
  }

  predicate BreakFree(s: string) { forall i :: 0 <= i < |s| ==> !IsBreak(s[i]) }

  /** How many characters the break at the front of `s` takes: "\r\n" is one break. */
  function BreakLen(s: string): (n: nat)
    requires s != []
    ensures 1 <= n <= |s|
  {
    if s[0] == '\r' && |s| > 1 && s[1] == '\n' then 2 else 1
  }

  /** `str.splitlines()`; `line` is the line being read. */
  function SplitFrom(s: string, line: string): seq<string>
    decreases |s|
  {
    if s == [] then (if line == [] then [] else [line])
    else if IsBreak(s[0]) then [line] + SplitFrom(s[BreakLen(s)..], [])
    else SplitFrom(s[1..], line + [s[0]])
  }

  function SplitLines(s: string): seq<string> { SplitFrom(s, []) }

  /** `"\n".join(lines) + "\n"` */
  function Body(lines: seq<string>): string {
    if |lines| == 0 then "\n"
    else if |lines| == 1 then lines[0] + "\n"
    else lines[0] + "\n" + Body(lines[1..])
  }

  /** Every line of a text is followed by one line break; a text without lines is one break. */
  lemma {:induction false} BodySnoc(lines: seq<string>, line: string)
    ensures Body([]) == "\n"
    ensures Body(lines + [line]) == (if lines == [] then "" else Body(lines)) + line + "\n"
  {
    var all := lines + [line];
    if lines == [] {
      assert all == [line] && "" + line == line;
    } else {
      assert all[0] == lines[0] && all[1..] == lines[1..] + [line];
      BodySnoc(lines[1..], line);
      assert Body(all) == lines[0] + "\n" + Body(all[1..]);
      assert |lines| > 1 ==> Body(lines) == lines[0] + "\n" + Body(lines[1..]);
      assert "" + line + "\n" == line + "\n";
    }
  }

  predicate AllBreakFree(lines: seq<string>) { forall i :: 0 <= i < |lines| ==> BreakFree(lines[i]) }

  lemma {:induction false} SplitOneLine(line: string, rest: string, read: string)
    requires BreakFree(line)
    ensures SplitFrom(line + "\n" + rest, read) == [read + line] + SplitFrom(rest, [])
    decreases |line|
  {
    var s := line + "\n" + rest;
    if line == [] {
      assert s == ['\n'] + rest && s[1..] == rest;
      assert read + line == read;
    } else {
      assert s[0] == line[0] && s[1..] == line[1..] + "\n" + rest;
      SplitOneLine(line[1..], rest, read + [line[0]]);
      assert read + [line[0]] + line[1..] == read + line;
    }
  }

  /** A text is read line by line, with any of the line breaks; "\r\n" is one. */
  lemma {:induction false} SplitAtBreak(line: string, mark: string, rest: string, read: string)
    requires BreakFree(line) && (mark == "\r\n" || (|mark| == 1 && IsBreak(mark[0])))
    requires mark == "\r" ==> rest == [] || rest[0] != '\n'
    ensures SplitFrom(line + mark + rest, read) == [read + line] + SplitFrom(rest, [])
    decreases |line|
  {
    var s := line + mark + rest;
    if line == [] {
      assert s == mark + rest && s[|mark|..] == rest;
      assert s[0] == mark[0] && (|s| > 1 && |mark| == 1 ==> s[1] == rest[0]) && (|mark| == 2 ==> s[1] == '\n');
      assert read + line == read;
    } else {
      assert s[0] == line[0] && s[1..] == line[1..] + mark + rest;
      SplitAtBreak(line[1..], mark, rest, read + [line[0]]);
      assert read + [line[0]] + line[1..] == read + line;
    }
  }

  /** And a last line without a break counts. */
  lemma {:induction false} SplitLastLine(line: string, read: string)
    requires BreakFree(line)
    ensures SplitFrom(line, read) == if read + line == [] then [] else [read + line]
    decreases |line|
  {
    if line == [] {
      assert read + line == read;
    } else {
      SplitLastLine(line[1..], read + [line[0]]);
      assert read + [line[0]] + line[1..] == read + line;
    }
  }

  /** Reading back what was written gives the lines again. */
  lemma {:induction false} SplitBody(lines: seq<string>)
    requires AllBreakFree(lines) && lines != []
    ensures SplitLines(Body(lines)) == lines
  {
    if |lines| == 1 {
      assert lines[0] + "\n" + "" == lines[0] + "\n";
      SplitOneLine(lines[0], "", "");
    } else {
      SplitBody(lines[1..]);
      SplitOneLine(lines[0], Body(lines[1..]), "");
    }
    assert "" + lines[0] == lines[0];
  }

  lemma {:induction false} SplitIsBreakFree(s: string, line: string)
    requires BreakFree(line)
    ensures AllBreakFree(SplitFrom(s, line))
    decreases |s|
  {
    if s != [] {
      if IsBreak(s[0]) {
        SplitIsBreakFree(s[BreakLen(s)..], []);
      } else {
        SplitIsBreakFree(s[1..], line + [s[0]]);
      }
    }
  }

  // ---- assignments ----

  predicate IsLetter(c: char) { 'A' <= c <= 'Z' || 'a' <= c <= 'z' || c == '_' }

  predicate IsWordChar(c: char) { IsLetter(c) || '0' <= c <= '9' }

  function WordLen(s: string): (n: nat)
    ensures n <= |s|
  {
    if s != [] && IsWordChar(s[0]) then 1 + WordLen(s[1..]) else 0
  }

  /** The key of the line, by `^\s*([A-Za-z_][A-Za-z0-9_]*)\s*=\s*(?:.*)?$`. */
  function KeyOf(line: string): Option<string> {
    var s := StripLeft(line);
    if s == [] || !IsLetter(s[0]) then None
    else
      var n := WordLen(s);
      var rest := StripLeft(s[n..]);
      if rest != [] && rest[0] == '=' then Some(s[..n]) else None
  }

  predicate IsIdentifier(s: string) { s != [] && IsLetter(s[0]) && WordLen(s) == |s| }

  /** An ordered mapping, as a dict: keys with their values. */
  datatype Update = Update(key: string, value: string)

  predicate UniqueKeys(us: seq<Update>) {
    forall i, j :: 0 <= i < j < |us| ==> us[i].key != us[j].key
  }

  function Lookup(us: seq<Update>, key: string): Option<string> {
    if us == [] then None
    else if us[|us| - 1].key == key then Some(us[|us| - 1].value)
    else Lookup(us[..|us| - 1], key)
  }

  function Assignment(u: Update): string { u.key + "=" + u.value }

  // ---- the rewrite ----

  function NewLine(line: string, us: seq<Update>): string {
    var key := KeyOf(line);
    if key.Some? && Lookup(us, key.value).Some? then key.value + "=" + Lookup(us, key.value).value else line
  }

  function Rewritten(lines: seq<string>, us: seq<Update>): seq<string> {
    seq(|lines|, i requires 0 <= i < |lines| => NewLine(lines[i], us))
  }

  predicate Assigns(lines: seq<string>, key: string) {
    exists i :: 0 <= i < |lines| && KeyOf(lines[i]) == Some(key)
  }

  predicate Blank(line: string) { Strip(line) == "" }

  /** Appends one new assignment, with a blank line before it unless one is there. */
  function Append(output: seq<string>, u: Update): seq<string> {
    output + (if output != [] && !Blank(output[|output| - 1]) then [""] else []) + [Assignment(u)]
  }

  /** The assignments of `todo` that have no line in the file yet. */
  function AppendMissing(output: seq<string>, lines: seq<string>, todo: seq<Update>): seq<string> {
    if todo == [] then output
    else
      var before := AppendMissing(output, lines, todo[..|todo| - 1]);
      var u := todo[|todo| - 1];
      if Assigns(lines, u.key) then before else Append(before, u)
  }

  function NewLines(lines: seq<string>, us: seq<Update>): seq<string> {
    AppendMissing(Rewritten(lines, us), lines, us)
  }

  function UpdatedText(text: string, us: seq<Update>): string {
    Body(NewLines(SplitLines(text), us))
  }

  method UpdateEnvVars(text: string, us: seq<Update>) returns (result: string)
    requires UniqueKeys(us)
    ensures result == UpdatedText(text, us)
  {
    hide KeyOf, Blank, Body, SplitLines;
    var lines := SplitLines(text);
    var seen: set<string> := {};
    var output: seq<string> := [];
    var i := 0;
    while i < |lines|
      invariant 0 <= i <= |lines|
      invariant output == Rewritten(lines[..i], us)
      invariant forall key :: key in seen <==> Lookup(us, key).Some? && Assigns(lines[..i], key)
    {
      var key := KeyOf(lines[i]);
      assert lines[..i + 1] == lines[..i] + [lines[i]];
      AssignsSnoc(lines[..i], lines[i]);
      if key.Some? && Lookup(us, key.value).Some? {
        output := output + [key.value + "=" + Lookup(us, key.value).value];
        seen := seen + {key.value};
      } else {
        output := output + [lines[i]];
      }
      i := i + 1;
    }
    assert lines[..i] == lines;
    var j := 0;
    assert us[..0] == [];
    while j < |us|
      invariant 0 <= j <= |us|
      invariant output == AppendMissing(Rewritten(lines, us), lines, us[..j])
    {
      var u := us[j];
      assert us[..j + 1][..j] == us[..j];
      LookupMember(us, j);
      if u.key !in seen {
        if output != [] && !Blank(output[|output| - 1]) {
          output := output + [""];
        }
        output := output + [Assignment(u)];
      }
      j := j + 1;
    }
    assert us[..j] == us;
    result := Body(output);
  }

  lemma AssignsSnoc(lines: seq<string>, line: string)
    ensures forall key :: Assigns(lines + [line], key) <==> Assigns(lines, key) || KeyOf(line) == Some(key)
  {
    hide KeyOf;
    var all := lines + [line];
    forall key ensures Assigns(all, key) <==> Assigns(lines, key) || KeyOf(line) == Some(key) {
      if Assigns(lines, key) {
        var i :| 0 <= i < |lines| && KeyOf(lines[i]) == Some(key);
        assert KeyOf(all[i]) == Some(key);
      }
      assert all[|lines|] == line;
      if Assigns(all, key) {
        var i :| 0 <= i < |all| && KeyOf(all[i]) == Some(key);
        assert i < |lines| ==> KeyOf(lines[i]) == Some(key);
      }
    }
  }

  lemma {:induction false} LookupMember(us: seq<Update>, j: nat)
    requires UniqueKeys(us) && j < |us|
    ensures Lookup(us, us[j].key) == Some(us[j].value)
  {
    if j < |us| - 1 { LookupMember(us[..|us| - 1], j); }
  }

  lemma {:induction false} LookupFinds(us: seq<Update>, key: string)
    requires Lookup(us, key).Some?
    ensures exists j :: 0 <= j < |us| && us[j] == Update(key, Lookup(us, key).value)
  {
    if us[|us| - 1].key != key {
      LookupFinds(us[..|us| - 1], key);
      var j :| 0 <= j < |us| - 1 && us[..|us| - 1][j] == Update(key, Lookup(us, key).value);
      assert us[j] == Update(key, Lookup(us, key).value);
    } else {
      assert us[|us| - 1] == Update(key, Lookup(us, key).value);
    }
  }
}
