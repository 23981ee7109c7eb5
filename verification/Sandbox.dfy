/** How the runner frames a program's outputs inside its standard output (runner/python/sandbox.py). */
module Sandbox {
  import opened Wrappers
  import opened Text

  const SENTINEL := "__RUNNER_OUTPUT__"

  /** The JSON library, as far as the framing depends on it. */
  datatype Json<!O> = Json(dumps: O -> string, loads: string -> Option<O>, empty: O)

  /** Serialised outputs are one non-empty line. Whether loads inverts dumps is left open: tuples and number keys do not survive. */
  ghost predicate OneLine<O(!new)>(json: Json<O>) {
    forall o :: json.dumps(o) != "" && NoBreak(json.dumps(o))
  }

  // --- str.splitlines ---

  predicate IsBreak(c: char) {
    || '\n' <= c <= '\r' || '\U{001C}' <= c <= '\U{001E}' || c == '\U{0085}' || c == '\U{2028}' || c == '\U{2029}'
  }

  predicate NoBreak(s: string) {
    forall i :: 0 <= i < |s| ==> !IsBreak(s[i])
  }

  function FirstBreak(s: string): (n: nat)
    ensures n <= |s| && (forall i :: 0 <= i < n ==> !IsBreak(s[i])) && (n < |s| ==> IsBreak(s[n]))
  {
    if s == "" || IsBreak(s[0]) then 0 else
      var n := FirstBreak(s[1..]);
      assert forall i :: 0 < i < n + 1 ==> s[i] == s[1..][i - 1];
      n + 1
  }

  /** A carriage return takes a line feed behind it along. */
  function AfterBreak(s: string, n: nat): (m: nat)
    requires n < |s|
    ensures n < m <= |s|
  {
    if s[n] == '\r' && n + 1 < |s| && s[n + 1] == '\n' then n + 2 else n + 1
  }

  function SplitLines(s: string): seq<string> {
    if s == "" then []
    else
      var n := FirstBreak(s);
      if n == |s| then [s] else [s[..n]] + SplitLines(s[AfterBreak(s, n)..])
  }

  // --- What the wrapper writes and what the runner reads ---

  predicate IsSentinel(line: string) {
    |line| >= |SENTINEL| && line[..|SENTINEL|] == SENTINEL
  }

  function ProcessOutput<O>(json: Json<O>, userText: string, outputs: O): string {
    userText + "\n" + SENTINEL + json.dumps(outputs) + "\n"
  }

  function Payload<O>(json: Json<O>, line: string): O
    requires IsSentinel(line)
  {
    var rest := line[|SENTINEL|..];
    var loaded := json.loads(if rest == "" then "{}" else rest);
    if loaded.Some? then loaded.value else json.empty
  }

  /** The payload of the last sentinel line. */
  function OutputsOf<O>(json: Json<O>, lines: seq<string>): O {
    if lines == [] then json.empty
    else
      var n := |lines| - 1;
      if IsSentinel(lines[n]) then Payload(json, lines[n]) else OutputsOf(json, lines[..n])
  }

  function PlainLines(lines: seq<string>): (r: seq<string>)
    ensures forall i :: 0 <= i < |r| ==> !IsSentinel(r[i]) && r[i] in lines
    ensures |r| <= |lines|
    ensures |r| == |lines| <==> forall i :: 0 <= i < |lines| ==> !IsSentinel(lines[i])
    ensures |r| == |lines| ==> r == lines
  {
    if lines == [] then []
    else
      var n := |lines| - 1;
      assert lines == lines[..n] + [lines[n]];
      PlainLines(lines[..n]) + (if IsSentinel(lines[n]) then [] else [lines[n]])
  }

  method ReadRun<O>(json: Json<O>, stdout: string) returns (outputs: O, text: string)
    ensures outputs == OutputsOf(json, SplitLines(stdout))
    ensures text == Join("\n", PlainLines(SplitLines(stdout)))
  {
    outputs := json.empty;
    var preLines: seq<string> := [];
    var lines := SplitLines(stdout);
    for i := 0 to |lines|
      invariant outputs == OutputsOf(json, lines[..i]) && preLines == PlainLines(lines[..i])
    {
      var line := lines[i];
      assert lines[..i + 1][..i] == lines[..i];
      if IsSentinel(line) {
        var rest := line[|SENTINEL|..];
        var loaded := json.loads(if rest == "" then "{}" else rest);
        outputs := if loaded.Some? then loaded.value else json.empty;
      } else {
        preLines := preLines + [line];
      }
    }
    assert lines[..|lines|] == lines;
    text := Join("\n", preLines);
  }

  // --- The wrapper's line is always the last line ---

  lemma OneLineText(x: string)
    requires x != "" && NoBreak(x)
    ensures SplitLines(x + "\n") == [x]
  {
    var s := x + "\n";
    assert forall i :: 0 <= i < |x| ==> s[i] == x[i];
    assert s[|x|] == '\n' && s[..|x|] == x;
    assert s[|x| + 1..] == "";
  }

  /** Text behind a line feed does not disturb the first line before it, and leaves what follows that line. */
  lemma FirstLineStays(userText: string, tail: string)
    ensures var head := userText + "\n";
            var n := FirstBreak(head);
            && n <= |userText| && FirstBreak(head + tail) == n
            && AfterBreak(head + tail, n) == AfterBreak(head, n)
            && (head + tail)[..n] == head[..n]
            && (head + tail)[AfterBreak(head, n)..] == head[AfterBreak(head, n)..] + tail
  {
    var head := userText + "\n";
    var n := FirstBreak(head);
    assert head[|userText|] == '\n' && IsBreak('\n');
    assert forall i :: 0 <= i < |head| ==> (head + tail)[i] == head[i];
  }

  lemma {:induction false} LastLine(userText: string, x: string)
    requires x != "" && NoBreak(x)
    ensures SplitLines(userText + "\n" + (x + "\n")) == SplitLines(userText + "\n") + [x]
    decreases |userText|
  {
    var head, tail := userText + "\n", x + "\n";
    FirstLineStays(userText, tail);
    var m := AfterBreak(head, FirstBreak(head));
    if m < |head| {
      assert head[m..] == userText[m..] + "\n";
      LastLine(userText[m..], x);
    } else {
      assert head[m..] == "" && head[m..] + tail == tail;
      OneLineText(x);
    }
  }

  lemma SentinelLine<O(!new)>(json: Json<O>, outputs: O)
    requires OneLine(json)
    ensures var x := SENTINEL + json.dumps(outputs);
            x != "" && NoBreak(x) && IsSentinel(x) && x[|SENTINEL|..] == json.dumps(outputs) && json.dumps(outputs) != ""
  {
    var x := SENTINEL + json.dumps(outputs);
    assert x[..|SENTINEL|] == SENTINEL;
    assert NoBreak(SENTINEL);
    forall i | 0 <= i < |x| ensures !IsBreak(x[i]) {
      assert x[i] == if i < |SENTINEL| then SENTINEL[i] else json.dumps(outputs)[i - |SENTINEL|];
    }
  }

  /** Whatever the program printed, sentinels included, the outputs read are the ones written, as far as JSON keeps them. */
  lemma OutputsSurvive<O(!new)>(json: Json<O>, userText: string, outputs: O)
    requires OneLine(json)
    ensures var read := json.loads(json.dumps(outputs));
            OutputsOf(json, SplitLines(ProcessOutput(json, userText, outputs))) == if read.Some? then read.value else json.empty
  {
    var x := SENTINEL + json.dumps(outputs);
    SentinelLine(json, outputs);
    LastLine(userText, x);
    assert ProcessOutput(json, userText, outputs) == userText + "\n" + (x + "\n");
  }

  // --- When the program's own text comes back ---

  /** A line of the text, in the plain sense, that the runner would take for the wrapper's. */
  predicate HasSentinelLine(userText: string) {
    exists i :: 0 <= i < |Split(userText, '\n')| && IsSentinel(Split(userText, '\n')[i])
  }

  predicate OnlyLineFeeds(userText: string) {
    forall i :: 0 <= i < |userText| ==> IsBreak(userText[i]) ==> userText[i] == '\n'
  }

  lemma SplitFirst(a: string, rest: string)
    requires '\n' !in a
    ensures Split(a + "\n" + rest, '\n') == [a] + Split(rest, '\n')
  {
    var parts := Split(rest, '\n');
    SplitPieces(rest, '\n');
    JoinFront("\n", a, parts);
    SplitJoin([a] + parts, '\n');
  }

  lemma {:induction false} SplitNone(a: string)
    requires '\n' !in a
    ensures Split(a, '\n') == [a]
  {
    SplitJoin([a], '\n');
  }

  lemma {:induction false} PlainSplit(userText: string)
    requires OnlyLineFeeds(userText)
    ensures SplitLines(userText + "\n") == Split(userText, '\n')
    decreases |userText|
  {
    var head := userText + "\n";
    var n := FirstBreak(head);
    FirstLineStays(userText, "");
    assert head[n] == '\n';
    var a := userText[..n];
    assert a == head[..n] && '\n' !in a;
    if n == |userText| {
      SplitNone(a);
      assert head[n + 1..] == "";
    } else {
      var rest := userText[n + 1..];
      assert userText == a + "\n" + rest && head[n + 1..] == rest + "\n";
      SplitFirst(a, rest);
      PlainSplit(rest);
    }
  }

  lemma {:induction false} LinesHaveNoBreak(s: string)
    ensures forall i :: 0 <= i < |SplitLines(s)| ==> NoBreak(SplitLines(s)[i])
    decreases |s|
  {
    if s != "" && FirstBreak(s) < |s| {
      LinesHaveNoBreak(s[AfterBreak(s, FirstBreak(s))..]);
    }
  }

  lemma {:induction false} JoinOnlyAddsLineFeeds(lines: seq<string>)
    requires forall i :: 0 <= i < |lines| ==> NoBreak(lines[i])
    ensures OnlyLineFeeds(Join("\n", lines))
  {
    if |lines| > 1 {
      JoinOnlyAddsLineFeeds(lines[..|lines| - 1]);
    }
  }

  /** The text comes back exactly when it breaks lines only by line feeds and no line of it starts with the sentinel. */
  lemma TextSurvivesIff<O(!new)>(json: Json<O>, userText: string, outputs: O)
    requires OneLine(json)
    ensures Join("\n", PlainLines(SplitLines(ProcessOutput(json, userText, outputs)))) == userText
            <==> OnlyLineFeeds(userText) && !HasSentinelLine(userText)
  {
    var x := SENTINEL + json.dumps(outputs);
    SentinelLine(json, outputs);
    LastLine(userText, x);
    assert ProcessOutput(json, userText, outputs) == userText + "\n" + (x + "\n");
    var lines := SplitLines(userText + "\n");
    assert (lines + [x])[..|lines|] == lines;
    var kept := PlainLines(lines);
    assert PlainLines(lines + [x]) == kept;
    LinesHaveNoBreak(userText + "\n");
    forall i | 0 <= i < |kept| ensures NoBreak(kept[i]) && '\n' !in kept[i] {
      var j :| 0 <= j < |lines| && lines[j] == kept[i];
    }
    JoinOnlyAddsLineFeeds(kept);
    if OnlyLineFeeds(userText) {
      PlainSplit(userText);
      SplitPieces(userText, '\n');
      if Join("\n", kept) == userText {
        SplitNone("");
        if kept != [] { SplitJoin(kept, '\n'); }
      }
    }
  }
}
