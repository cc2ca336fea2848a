/** What a dotenv rewrite preserves. */
module DotenvProofs {
  import opened Options
  import opened Text
  import opened Dotenv

  /** Keys the line pattern can read back, unique, with values that stay on one line. */
  ghost predicate ValidUpdates(us: seq<Update>) {
    UniqueKeys(us) && OnOneLine(us) && forall j :: 0 <= j < |us| ==> IsIdentifier(us[j].key)
  }

  predicate OnOneLine(us: seq<Update>) {
    forall j :: 0 <= j < |us| ==> BreakFree(us[j].key) && BreakFree(us[j].value)
  }

  // ---- keys ----

  lemma {:induction false} WordLenOf(word: string, rest: string)
    requires WordLen(word) == |word| && (rest == [] || !IsWordChar(rest[0]))
    ensures WordLen(word + rest) == |word|
  {
    if word == [] {
      assert word + rest == rest;
    } else {
      assert (word + rest)[1..] == word[1..] + rest;
      WordLenOf(word[1..], rest);
    }
  }

  lemma {:induction false} WordLenSplits(s: string)
    ensures var n := WordLen(s);
      && (forall i :: 0 <= i < n ==> IsWordChar(s[i]))
      && WordLen(s[..n]) == n
  {
    if s != [] && IsWordChar(s[0]) {
      WordLenSplits(s[1..]);
      var n := WordLen(s);
      assert s[..n][1..] == s[1..][..n - 1];
      forall i | 0 <= i < n ensures IsWordChar(s[i]) {
        if i > 0 { assert s[i] == s[1..][i - 1]; }
      }
    }
  }

  /** A written assignment is read back under its key, exactly when the key is an identifier. */
  lemma AssignmentReadBackIff(u: Update)
    ensures KeyOf(Assignment(u)) == Some(u.key) <==> IsIdentifier(u.key)
  {
    var line := Assignment(u);
    if IsIdentifier(u.key) {
      assert line == u.key + ("=" + u.value);
      assert line[0] == u.key[0];
      WordLenOf(u.key, "=" + u.value);
      assert line[|u.key|..] == "=" + u.value;
      assert ("=" + u.value)[0] == '=';
      assert line[..|u.key|] == u.key;
    }
    KeyIsIdentifier(line);
  }

  lemma KeyIsIdentifier(line: string)
    ensures KeyOf(line).Some? ==> IsIdentifier(KeyOf(line).value) && BreakFree(KeyOf(line).value)
  {
    var s := StripLeft(line);
    WordLenSplits(s);
    if KeyOf(line).Some? {
      var key := KeyOf(line).value;
      forall i | 0 <= i < |key| ensures !IsBreak(key[i]) {
        assert IsWordChar(s[i]);
      }
    }
  }

  // ---- the appended part ----

  /** The updates whose key has no line in the file. */
  function Missing(lines: seq<string>, us: seq<Update>): seq<Update> {
    if us == [] then []
    else Missing(lines, us[..|us| - 1]) + (if Assigns(lines, us[|us| - 1].key) then [] else [us[|us| - 1]])
  }

  /** The lines of `output` that are not empty. */
  function Filled(output: seq<string>): seq<string> {
    if output == [] then []
    else Filled(output[..|output| - 1]) + (if output[|output| - 1] == "" then [] else [output[|output| - 1]])
  }

  function Assignments(us: seq<Update>): seq<string> {
    seq(|us|, i requires 0 <= i < |us| => us[i].key + "=" + us[i].value)
  }

  lemma FilledSnoc(output: seq<string>, line: string)
    ensures Filled(output + [line]) == Filled(output) + (if line == "" then [] else [line])
  {
    assert (output + [line])[..|output|] == output;
  }

  lemma FilledAppend(output: seq<string>, added: seq<string>, u: Update)
    requires output <= Append(output, u)
    ensures Filled(added + Append(output, u)[|output|..]) == Filled(added) + [Assignment(u)]
  {
    hide Blank;
    var tail := Append(output, u)[|output|..];
    if tail == [Assignment(u)] {
      FilledSnoc(added, Assignment(u));
    } else {
      assert tail == [""] + [Assignment(u)];
      FilledSnoc(added, "");
      FilledSnoc(added + [""], Assignment(u));
      assert added + tail == (added + [""]) + [Assignment(u)];
    }
  }

  /** Behind the rewritten lines stand, apart from empty separators, exactly the missing
      assignments in order. */
  lemma {:induction false} AppendedIsMissing(output: seq<string>, lines: seq<string>, todo: seq<Update>)
    ensures var result := AppendMissing(output, lines, todo);
      output <= result && Filled(result[|output|..]) == Assignments(Missing(lines, todo))
  {
    hide Assigns, Append;
    if todo != [] {
      var before := AppendMissing(output, lines, todo[..|todo| - 1]);
      var u := todo[|todo| - 1];
      AppendedIsMissing(output, lines, todo[..|todo| - 1]);
      if !Assigns(lines, u.key) {
        OneMoreAppended(output, before, u, Missing(lines, todo[..|todo| - 1]));
      }
    } else {
      assert output[|output|..] == [];
    }
  }

  lemma OneMoreAppended(output: seq<string>, before: seq<string>, u: Update, missing: seq<Update>)
    requires output <= before && Filled(before[|output|..]) == Assignments(missing)
    ensures output <= Append(before, u)
    ensures Filled(Append(before, u)[|output|..]) == Assignments(missing + [u])
  {
    hide Append, Filled;
    var added := before[|output|..];
    AppendGrows(before, u);
    FilledAppend(before, added, u);
    assert Append(before, u)[|output|..] == added + Append(before, u)[|before|..];
    assert Assignments(missing + [u]) == Assignments(missing) + [Assignment(u)];
  }

  lemma AppendGrows(output: seq<string>, u: Update)
    ensures output <= Append(output, u)
    ensures |output| < |Append(output, u)|
    ensures Append(output, u)[|Append(output, u)| - 1] == Assignment(u)
    ensures forall i :: |output| <= i < |Append(output, u)| ==>
      Append(output, u)[i] == "" || Append(output, u)[i] == Assignment(u)
  {
    hide Blank;
  }

  /** The faithful update, line by line: every old line keeps its place, with the new value if
      it assigns an updated key and untouched otherwise; behind them come, apart from empty
      separators, exactly the updated keys the file did not have, in order. */
  lemma RewriteIsFaithful(lines: seq<string>, us: seq<Update>)
    ensures var out := NewLines(lines, us);
      && |lines| <= |out|
      && (forall i :: 0 <= i < |lines| ==> out[i] == NewLine(lines[i], us))
      && Filled(out[|lines|..]) == Assignments(Missing(lines, us))
  {
    hide KeyOf, Assigns;
    AppendedIsMissing(Rewritten(lines, us), lines, us);
  }

  // ---- every assignment of an updated key carries the new value ----

  /** A line the rewrite leaves alone. */
  predicate Settled(line: string, us: seq<Update>) { NewLine(line, us) == line }

  predicate AllSettled(lines: seq<string>, us: seq<Update>) {
    forall i :: 0 <= i < |lines| ==> Settled(lines[i], us)
  }

  lemma EmptyIsSettled(us: seq<Update>)
    ensures Settled("", us)
  {
  }

  lemma AssignmentIsSettled(us: seq<Update>, j: nat)
    requires UniqueKeys(us) && j < |us|
    ensures IsIdentifier(us[j].key) ==> Settled(Assignment(us[j]), us)
  {
    hide KeyOf;
    AssignmentReadBackIff(us[j]);
    LookupMember(us, j);
  }

  lemma NewLineIsSettled(line: string, us: seq<Update>)
    ensures Settled(NewLine(line, us), us)
  {
    hide KeyOf, IsIdentifier;
    var key := KeyOf(line);
    if key.Some? && Lookup(us, key.value).Some? {
      KeyIsIdentifier(line);
      AssignmentReadBackIff(Update(key.value, Lookup(us, key.value).value));
    }
  }

  /** What the rewrite writes settles at once, and stays on one line. */
  predicate Fine(line: string, us: seq<Update>) { Settled(line, us) && BreakFree(line) }

  lemma NewLineIsFine(line: string, us: seq<Update>)
    requires OnOneLine(us) && BreakFree(line)
    ensures Fine(NewLine(line, us), us)
  {
    hide KeyOf;
    NewLineIsSettled(line, us);
    KeyIsIdentifier(line);
    var key := KeyOf(line);
    if key.Some? && Lookup(us, key.value).Some? {
      LookupFinds(us, key.value);
    }
  }

  lemma {:induction false} AppendedIsBreakFree(output: seq<string>, lines: seq<string>, todo: seq<Update>)
    requires AllBreakFree(output) && OnOneLine(todo)
    ensures AllBreakFree(AppendMissing(output, lines, todo))
  {
    hide Assigns, Append;
    if todo != [] {
      var u := todo[|todo| - 1];
      var before := AppendMissing(output, lines, todo[..|todo| - 1]);
      AppendedIsBreakFree(output, lines, todo[..|todo| - 1]);
      AppendGrows(before, u);
      AssignmentIsBreakFree(u);
    }
  }

  lemma AssignmentIsBreakFree(u: Update)
    requires BreakFree(u.key) && BreakFree(u.value)
    ensures BreakFree(Assignment(u)) && BreakFree("")
  {
    var line := Assignment(u);
    assert line == u.key + ("=" + u.value);
    forall i | 0 <= i < |line| ensures !IsBreak(line[i]) {
      if i > |u.key| { assert line[i] == u.value[i - |u.key| - 1]; }
    }
  }

  lemma OutputIsBreakFree(lines: seq<string>, us: seq<Update>)
    requires AllBreakFree(lines) && OnOneLine(us)
    ensures AllBreakFree(NewLines(lines, us))
  {
    hide KeyOf, Assigns, Settled;
    forall i | 0 <= i < |lines| ensures BreakFree(Rewritten(lines, us)[i]) {
      NewLineIsFine(lines[i], us);
    }
    AppendedIsBreakFree(Rewritten(lines, us), lines, us);
  }

  lemma {:induction false} AppendedIsSettled(output: seq<string>, lines: seq<string>, us: seq<Update>, n: nat)
    requires UniqueKeys(us) && n <= |us|
    requires forall j :: 0 <= j < |us| ==> IsIdentifier(us[j].key)
    requires AllSettled(output, us)
    ensures AllSettled(AppendMissing(output, lines, us[..n]), us)
  {
    hide Assigns, Append, Settled, IsIdentifier;
    if n > 0 {
      assert us[..n][..n - 1] == us[..n - 1] && us[..n][n - 1] == us[n - 1];
      var before, out := AppendMissing(output, lines, us[..n - 1]), AppendMissing(output, lines, us[..n]);
      AppendedIsSettled(output, lines, us, n - 1);
      AppendGrows(before, us[n - 1]);
      AssignmentIsSettled(us, n - 1);
      EmptyIsSettled(us);
      if !Assigns(lines, us[n - 1].key) {
        assert out == Append(before, us[n - 1]);
        forall i | 0 <= i < |out| ensures Settled(out[i], us) {
          assert i < |before| ==> out[i] == before[i];
        }
      }
    }
  }

  lemma OutputIsSettled(lines: seq<string>, us: seq<Update>)
    requires ValidUpdates(us)
    ensures Rewritten(NewLines(lines, us), us) == NewLines(lines, us)
  {
    hide KeyOf, Assigns, AppendMissing, IsIdentifier;
    forall i | 0 <= i < |lines| ensures Settled(Rewritten(lines, us)[i], us) {
      NewLineIsSettled(lines[i], us);
    }
    AppendedIsSettled(Rewritten(lines, us), lines, us, |us|);
    assert us[..|us|] == us;
    var out := NewLines(lines, us);
    forall i | 0 <= i < |out| ensures NewLine(out[i], us) == out[i] {
      assert Settled(out[i], us);
    }
  }

  /** After the rewrite every line that assigns an updated key carries its new value. */
  lemma EveryAssignmentIsNew(lines: seq<string>, us: seq<Update>, i: nat, key: string)
    requires ValidUpdates(us) && i < |NewLines(lines, us)|
    requires KeyOf(NewLines(lines, us)[i]) == Some(key) && Lookup(us, key).Some?
    ensures NewLines(lines, us)[i] == key + "=" + Lookup(us, key).value
  {
    hide KeyOf, NewLines;
    OutputIsSettled(lines, us);
    assert Rewritten(NewLines(lines, us), us)[i] == NewLine(NewLines(lines, us)[i], us);
  }

  // ---- a second rewrite ----

  lemma {:induction false} AppendedAssigns(output: seq<string>, lines: seq<string>, us: seq<Update>, n: nat, j: nat)
    requires j < n <= |us| && IsIdentifier(us[j].key) && !Assigns(lines, us[j].key)
    ensures Assigns(AppendMissing(output, lines, us[..n]), us[j].key)
    decreases n
  {
    hide KeyOf, Append, IsIdentifier;
    assert us[..n][..n - 1] == us[..n - 1] && us[..n][n - 1] == us[n - 1];
    var before := AppendMissing(output, lines, us[..n - 1]);
    var out := AppendMissing(output, lines, us[..n]);
    AppendGrows(before, us[n - 1]);
    if j == n - 1 {
      AssignmentReadBackIff(us[j]);
      assert KeyOf(out[|out| - 1]) == Some(us[j].key);
    } else {
      AppendedAssigns(output, lines, us, n - 1, j);
      var i :| 0 <= i < |before| && KeyOf(before[i]) == Some(us[j].key);
      assert KeyOf(out[i]) == Some(us[j].key);
    }
  }

  lemma OutputAssignsAll(lines: seq<string>, us: seq<Update>, j: nat)
    requires ValidUpdates(us) && j < |us|
    ensures Assigns(NewLines(lines, us), us[j].key)
  {
    hide KeyOf, AppendMissing, Missing;
    assert us[..|us|] == us;
    if Assigns(lines, us[j].key) {
      var i :| 0 <= i < |lines| && KeyOf(lines[i]) == Some(us[j].key);
      RewriteIsFaithful(lines, us);
      LookupMember(us, j);
      AssignmentReadBackIff(us[j]);
      assert NewLine(lines[i], us) == Assignment(us[j]);
      assert KeyOf(NewLines(lines, us)[i]) == Some(us[j].key);
    } else {
      AppendedAssigns(Rewritten(lines, us), lines, us, |us|, j);
    }
  }

  lemma {:induction false} NothingMissing(output: seq<string>, lines: seq<string>, todo: seq<Update>)
    requires forall j :: 0 <= j < |todo| ==> Assigns(lines, todo[j].key)
    ensures AppendMissing(output, lines, todo) == output
  {
    hide Assigns;
    if todo != [] { NothingMissing(output, lines, todo[..|todo| - 1]); }
  }

  /** On lines, a second rewrite with the same mapping changes nothing. */
  lemma RewriteTwice(lines: seq<string>, us: seq<Update>)
    requires ValidUpdates(us)
    ensures NewLines(NewLines(lines, us), us) == NewLines(lines, us)
  {
    hide Assigns, Rewritten, ValidUpdates;
    var out := NewLines(lines, us);
    OutputIsSettled(lines, us);
    forall j | 0 <= j < |us| ensures Assigns(out, us[j].key) { OutputAssignsAll(lines, us, j); }
    NothingMissing(out, out, us);
  }

  /** A key that is no identifier is never found, so each rewrite appends it again. */
  lemma {:induction false} BadKeyAppends(output: seq<string>, lines: seq<string>, us: seq<Update>, n: nat, j: nat)
    requires j < n <= |us| && !IsIdentifier(us[j].key)
    ensures |AppendMissing(output, lines, us[..n])| > |output|
    decreases n
  {
    hide Append, IsIdentifier;
    assert us[..n][..n - 1] == us[..n - 1] && us[..n][n - 1] == us[n - 1];
    AppendedIsMissing(output, lines, us[..n - 1]);
    AppendGrows(AppendMissing(output, lines, us[..n - 1]), us[n - 1]);
    if j == n - 1 {
      BadKeyUnassigned(lines, us[j].key);
    } else {
      BadKeyAppends(output, lines, us, n - 1, j);
    }
  }

  lemma BadKeyUnassigned(lines: seq<string>, key: string)
    requires !IsIdentifier(key)
    ensures !Assigns(lines, key)
  {
    hide KeyOf;
    forall i | 0 <= i < |lines| ensures KeyOf(lines[i]) != Some(key) {
      KeyIsIdentifier(lines[i]);
    }
  }

  /** What the file says once rewritten is what a second read sees. */
  lemma RereadOutput(text: string, us: seq<Update>)
    requires OnOneLine(us) && NewLines(SplitLines(text), us) != []
    ensures AllBreakFree(NewLines(SplitLines(text), us))
    ensures SplitLines(UpdatedText(text, us)) == NewLines(SplitLines(text), us)
  {
    hide NewLines, Body, SplitFrom;
    SplitIsBreakFree(text, []);
    OutputIsBreakFree(SplitLines(text), us);
    SplitBody(NewLines(SplitLines(text), us));
  }

  /** Rewriting the file a second time with the same mapping changes nothing exactly when
      every key is an identifier. */
  lemma SecondRewriteChangesNothingIff(text: string, us: seq<Update>)
    requires UniqueKeys(us) && OnOneLine(us)
    ensures UpdatedText(UpdatedText(text, us), us) == UpdatedText(text, us) <==>
      forall j :: 0 <= j < |us| ==> IsIdentifier(us[j].key)
  {
    hide IsIdentifier, SplitFrom, Body;
    var lines := SplitLines(text);
    var out := NewLines(lines, us);
    if us == [] {
      EmptyMapping(text);
    } else {
      SomeOutput(lines, us);
      RereadOutput(text, us);
      if forall j :: 0 <= j < |us| ==> IsIdentifier(us[j].key) {
        RewriteTwice(lines, us);
      } else {
        var j :| 0 <= j < |us| && !IsIdentifier(us[j].key);
        assert us[..|us|] == us;
        BadKeyAppends(Rewritten(out, us), out, us, |us|, j);
        assert NewLines(out, us) != out;
        RereadOutput(UpdatedText(text, us), us);
      }
    }
  }

  lemma SomeOutput(lines: seq<string>, us: seq<Update>)
    requires us != []
    ensures NewLines(lines, us) != []
  {
    hide KeyOf;
    var u := us[|us| - 1];
    AppendedIsMissing(Rewritten(lines, us), lines, us[..|us| - 1]);
    AppendGrows(AppendMissing(Rewritten(lines, us), lines, us[..|us| - 1]), u);
  }

  lemma EmptyMapping(text: string)
    ensures UpdatedText(UpdatedText(text, []), []) == UpdatedText(text, [])
  {
    hide KeyOf;
    var lines := SplitLines(text);
    assert NewLines(lines, []) == lines;
    if lines == [] {
      assert SplitFrom("\n", []) == [[]] + SplitFrom("\n"[1..], []);
      assert SplitLines("\n") == [""];
      assert NewLines([""], []) == [""];
    } else {
      RereadOutput(text, []);
    }
  }

  // ---- which lines assign a key ----

  /** `[A-Za-z_][A-Za-z0-9_]*` */
  ghost predicate IsName(s: string) {
    && s != []
    && ('A' <= s[0] <= 'Z' || 'a' <= s[0] <= 'z' || s[0] == '_')
    && forall c :: c in s ==> 'A' <= c <= 'Z' || 'a' <= c <= 'z' || c == '_' || '0' <= c <= '9'
  }

  ghost predicate AllSpaces(s: string) { forall c :: c in s ==> IsSpace(c) }

  lemma {:induction false} NameWordLen(s: string)
    ensures WordLen(s) == |s| <==> forall c :: c in s ==> IsWordChar(c)
  {
    if s != [] {
      NameWordLen(s[1..]);
      assert s == [s[0]] + s[1..];
    }
  }

  lemma NameIsIdentifier(s: string)
    ensures IsName(s) <==> IsIdentifier(s)
  {
    NameWordLen(s);
  }

  lemma {:induction false} SkipSpaces(a: string, s: string)
    requires AllSpaces(a) && (s != [] ==> !IsSpace(s[0]))
    ensures StripLeft(a + s) == s
  {
    if a == [] {
      assert a + s == s;
    } else {
      assert (a + s)[1..] == a[1..] + s && a[0] in a;
      SkipSpaces(a[1..], s);
    }
  }

  /** A line assigns a key exactly when it is whitespace, the key, whitespace, an equals sign
      and anything: however far it is indented. */
  lemma KeyOfIff(line: string, key: string)
    ensures KeyOf(line) == Some(key) <==> exists a, b, value :: SpelledOut(line, a, key, b, value)
  {
    if KeyOf(line) == Some(key) {
      var a, b, value := PartsOf(line, key);
      assert SpelledOut(line, a, key, b, value);
    }
    if a, b, value :| SpelledOut(line, a, key, b, value) {
      FoundIn(line, a, key, b, value);
    }
  }

  ghost predicate SpelledOut(line: string, a: string, key: string, b: string, value: string) {
    AllSpaces(a) && IsName(key) && AllSpaces(b) && line == a + key + b + "=" + value
  }

  lemma FoundIn(line: string, a: string, key: string, b: string, value: string)
    requires SpelledOut(line, a, key, b, value)
    ensures KeyOf(line) == Some(key)
  {
    hide StripLeft, WordLen, IsSpace;
    NameIsIdentifier(key);
    var tail := b + "=" + value;
    var s := key + tail;
    assert line == a + s;
    LetterIsNoSpace(key[0]);
    SkipSpaces(a, s);
    assert tail[0] == if b == [] then '=' else b[0];
    assert b != [] ==> b[0] in b;
    LetterIsNoSpace(tail[0]);
    WordLenOf(key, tail);
    assert s[|key|..] == tail && s[..|key|] == key;
    assert tail == b + ("=" + value);
    LetterIsNoSpace('=');
    SkipSpaces(b, "=" + value);
  }

  lemma LetterIsNoSpace(c: char)
    ensures IsWordChar(c) || c == '=' ==> !IsSpace(c)
    ensures c == '=' ==> !IsWordChar(c)
  {
  }

  /** What the pattern matched, unfolded. */
  lemma KeyOfIs(line: string)
    requires KeyOf(line).Some?
    ensures var s := StripLeft(line);
      var rest := StripLeft(s[WordLen(s)..]);
      KeyOf(line).value == s[..WordLen(s)] && rest != [] && rest[0] == '='
  {
    hide StripLeft, WordLen;
  }

  lemma PartsOf(line: string, key: string) returns (a: string, b: string, value: string)
    requires KeyOf(line) == Some(key)
    ensures SpelledOut(line, a, key, b, value)
  {
    hide *;
    KeyOfIs(line);
    StripLeftIs(line);
    KeyIsIdentifier(line);
    NameIsIdentifier(key);
    a := line[..LeftSpace(line)];
    var s := StripLeft(line);
    var tail := s[WordLen(s)..];
    StripLeftIs(tail);
    b := tail[..LeftSpace(tail)];
    var rest := StripLeft(tail);
    value := rest[1..];
    SpacesInFront(line, LeftSpace(line));
    SpacesInFront(tail, LeftSpace(tail));
    assert line == a + s && s == key + tail && tail == b + rest;
    Reassembles(line, a, s, key, tail, b, rest);
  }

  lemma SpacesInFront(s: string, n: nat)
    requires n <= |s| && forall k :: 0 <= k < n ==> IsSpace(s[k])
    ensures AllSpaces(s[..n])
  {
  }

  lemma Reassembles(line: string, a: string, s: string, key: string, tail: string, b: string, rest: string)
    requires line == a + s && s == key + tail && tail == b + rest && rest != [] && rest[0] == '='
    requires AllSpaces(a) && IsName(key) && AllSpaces(b)
    ensures SpelledOut(line, a, key, b, rest[1..])
  {
    assert rest == "=" + rest[1..];
    assert a + (key + (b + ("=" + rest[1..]))) == a + key + b + "=" + rest[1..];
  }

  // ---- the rewrite, line by line, and its separators ----

  /** A line that assigns an updated key becomes key, equals sign and new value; any other line
      is kept as it is. */
  lemma LineIsRewritten(lines: seq<string>, us: seq<Update>, i: nat)
    requires UniqueKeys(us) && i < |lines|
    ensures |NewLines(lines, us)| >= |lines|
    ensures forall j :: 0 <= j < |us| && KeyOf(lines[i]) == Some(us[j].key) ==>
      NewLines(lines, us)[i] == us[j].key + "=" + us[j].value
    ensures (forall j :: 0 <= j < |us| ==> KeyOf(lines[i]) != Some(us[j].key)) ==> NewLines(lines, us)[i] == lines[i]
  {
    hide KeyOf, NewLines, Missing, Filled;
    RewriteIsFaithful(lines, us);
    forall j | 0 <= j < |us| ensures Lookup(us, us[j].key) == Some(us[j].value) { LookupMember(us, j); }
    var key := KeyOf(lines[i]);
    if key.Some? && Lookup(us, key.value).Some? { LookupFinds(us, key.value); }
  }

  /** Behind the old lines, an empty line stands exactly where the line before it is not blank,
      so every added assignment has a blank line before it, unless the file begins with it. */
  lemma {:induction false} SeparatorsIff(output: seq<string>, lines: seq<string>, todo: seq<Update>, i: nat)
    requires |output| <= i < |AppendMissing(output, lines, todo)|
    ensures var out := AppendMissing(output, lines, todo);
      out[i] == "" <==> i > 0 && Strip(out[i - 1]) != ""
    decreases |todo|
  {
    hide Assigns, Strip;
    if todo != [] {
      var before := AppendMissing(output, lines, todo[..|todo| - 1]);
      var u := todo[|todo| - 1];
      AppendedIsMissing(output, lines, todo[..|todo| - 1]);
      if i < |before| {
        SeparatorsIff(output, lines, todo[..|todo| - 1], i);
        assert Assigns(lines, u.key) || before <= Append(before, u);
      } else {
        EmptyIsBlank();
      }
    }
  }

  lemma EmptyIsBlank()
    ensures Strip("") == ""
  {
  }
}
