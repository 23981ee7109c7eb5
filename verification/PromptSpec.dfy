/** Template markers, token budgets and context labels (app/chat/prompt.py). */
module PromptSpec {
  import opened Wrappers
  import opened Text

  // \w is a parameter: any class of characters disjoint from \s and from the braces.
  type CharClass = char -> bool

  ghost predicate WordClass(w: CharClass) {
    forall c :: w(c) ==> !IsSpace(c) && c != '{' && c != '}'
  }

  // --- The marker pattern: two braces, spaces, a word, spaces, two braces ---

  ghost predicate MarkerShape(w: CharClass, s: string, a: nat, b: nat, end: nat) {
    && 2 <= a < b <= end - 2 && end <= |s|
    && s[0] == '{' && s[1] == '{'
    && (forall i :: 2 <= i < a ==> IsSpace(s[i]))
    && (forall i :: a <= i < b ==> w(s[i]))
    && (forall i :: b <= i < end - 2 ==> IsSpace(s[i]))
    && s[end - 2] == '}' && s[end - 1] == '}'
  }

  /** s begins with a marker for name that ends at end. */
  ghost predicate IsMarker(w: CharClass, s: string, name: string, end: nat) {
    exists a: nat, b: nat :: MarkerShape(w, s, a, b, end) && s[a..b] == name
  }

  function Skip(p: CharClass, s: string, i: nat): (j: nat)
    requires i <= |s|
    ensures i <= j <= |s| && (forall k :: i <= k < j ==> p(s[k])) && (j < |s| ==> !p(s[j]))
    decreases |s| - i
  {
    if i < |s| && p(s[i]) then Skip(p, s, i + 1) else i
  }

  datatype Marker = Marker(name: string, end: nat)

  /** The greedy scanner behind the compiled pattern. */
  function MatchHead(w: CharClass, s: string): (m: Option<Marker>)
    ensures m.Some? ==> 0 < m.value.end <= |s|
  {
    if |s| < 2 || s[0] != '{' || s[1] != '{' then None
    else
      var a := Skip(IsSpace, s, 2);
      var b := Skip(w, s, a);
      var c := Skip(IsSpace, s, b);
      if a < b && c + 2 <= |s| && s[c] == '}' && s[c + 1] == '}' then Some(Marker(s[a..b], c + 2)) else None
  }

  /** Greedy scanning without backtracking finds exactly the matches of the pattern, and there is at most one. */
  lemma ScannerIsThePattern(w: CharClass, s: string, name: string, end: nat)
    requires WordClass(w)
    ensures MatchHead(w, s) == Some(Marker(name, end)) <==> IsMarker(w, s, name, end)
  {
    if IsMarker(w, s, name, end) {
      var a: nat, b: nat :| MarkerShape(w, s, a, b, end) && s[a..b] == name;
      var a' := Skip(IsSpace, s, 2);
      assert w(s[a]);
      assert a' == a;
      var b' := Skip(w, s, a);
      assert s[b] == '}' || IsSpace(s[b]);
      assert b' == b;
      assert !IsSpace('}');
      assert Skip(IsSpace, s, b) == end - 2;
    }
    if MatchHead(w, s) == Some(Marker(name, end)) {
      var a := Skip(IsSpace, s, 2);
      var b := Skip(w, s, a);
      assert MarkerShape(w, s, a, b, end) && s[a..b] == name;
    }
  }

  // --- The two consumers ---

  function Detect(w: CharClass, s: string): set<string> {
    if s == "" then {}
    else match MatchHead(w, s)
      case Some(m) => {m.name} + Detect(w, s[m.end..])
      case None => Detect(w, s[1..])
  }

  function Lookup(vars: map<string, string>, name: string): string {
    if name in vars then vars[name] else ""
  }

  function Render(w: CharClass, s: string, vars: map<string, string>): string {
    if s == "" then ""
    else match MatchHead(w, s)
      case Some(m) => Lookup(vars, m.name) + Render(w, s[m.end..], vars)
      case None => [s[0]] + Render(w, s[1..], vars)
  }

  lemma NoMatchCopies(w: CharClass, s: string, vars: map<string, string>)
    requires s != "" && MatchHead(w, s).None?
    ensures Render(w, s, vars) == [s[0]] + Render(w, s[1..], vars) && Detect(w, s) == Detect(w, s[1..])
  {
  }

  /** Leftmost replacement: what precedes the first marker is copied, and scanning resumes after the marker. */
  lemma CopyOne(w: CharClass, s: string, vars: map<string, string>, i: nat)
    requires 0 < i <= |s| && MatchHead(w, s[i - 1..]).None?
    ensures s[..i - 1] + Render(w, s[i - 1..], vars) == s[..i] + Render(w, s[i..], vars)
    ensures Detect(w, s[i - 1..]) == Detect(w, s[i..])
  {
    var t := s[i - 1..];
    NoMatchCopies(w, t, vars);
    assert t[1..] == s[i..] && t[0] == s[i - 1];
    var rest := Render(w, s[i..], vars);
    assert s[..i - 1] + ([t[0]] + rest) == s[..i] + rest;
  }

  lemma {:induction false} RenderLeftmost(w: CharClass, s: string, vars: map<string, string>, i: nat)
    requires i <= |s| && forall k :: 0 <= k < i ==> MatchHead(w, s[k..]).None?
    ensures Render(w, s, vars) == s[..i] + Render(w, s[i..], vars)
    ensures Detect(w, s) == Detect(w, s[i..])
  {
    if i == 0 {
      assert s[0..] == s;
      assert s[..0] + Render(w, s, vars) == Render(w, s, vars);
    } else {
      RenderLeftmost(w, s, vars, i - 1);
      CopyOne(w, s, vars, i);
    }
  }

  /** A template whose suffixes never start a marker renders to itself. */
  lemma PlainTextIsVerbatim(w: CharClass, s: string, vars: map<string, string>)
    requires forall k :: 0 <= k < |s| ==> MatchHead(w, s[k..]).None?
    ensures Render(w, s, vars) == s && Detect(w, s) == {}
  {
    RenderLeftmost(w, s, vars, |s|);
    assert s[..|s|] == s && s[|s|..] == "";
  }

  // --- A template is split once, before any value is looked at ---

  datatype Piece = Literal(c: char) | Variable(raw: string, name: string)

  function Pieces(w: CharClass, s: string): seq<Piece> {
    if s == "" then []
    else match MatchHead(w, s)
      case Some(m) => [Variable(s[..m.end], m.name)] + Pieces(w, s[m.end..])
      case None => [Literal(s[0])] + Pieces(w, s[1..])
  }

  function Source(p: Piece): string {
    match p case Literal(c) => [c] case Variable(raw, _) => raw
  }

  function Filled(p: Piece, vars: map<string, string>): string {
    match p case Literal(c) => [c] case Variable(_, name) => Lookup(vars, name)
  }

  function Sources(pieces: seq<Piece>): string {
    if pieces == [] then "" else Source(pieces[0]) + Sources(pieces[1..])
  }

  function Fill(pieces: seq<Piece>, vars: map<string, string>): string {
    if pieces == [] then "" else Filled(pieces[0], vars) + Fill(pieces[1..], vars)
  }

  /** Every variable is exactly one marker, and at no literal does a marker begin. */
  ghost predicate Leftmost(w: CharClass, pieces: seq<Piece>) {
    forall i :: 0 <= i < |pieces| ==>
      match pieces[i]
      case Literal(_) => MatchHead(w, Sources(pieces[i..])).None?
      case Variable(raw, name) => IsMarker(w, raw, name, |raw|)
  }

  lemma MarkerAlone(w: CharClass, s: string, name: string, end: nat)
    requires IsMarker(w, s, name, end)
    ensures end <= |s| && IsMarker(w, s[..end], name, end)
  {
    var a: nat, b: nat :| MarkerShape(w, s, a, b, end) && s[a..b] == name;
    assert MarkerShape(w, s[..end], a, b, end) && s[..end][a..b] == name;
  }

  function HeadLength(w: CharClass, s: string): (n: nat)
    requires s != ""
    ensures 0 < n <= |s|
  {
    match MatchHead(w, s) case Some(m) => m.end case None => 1
  }

  /** The split into pieces, one piece at a time. */
  lemma PiecesHead(w: CharClass, s: string)
    requires WordClass(w) && s != ""
    ensures var (n, pieces) := (HeadLength(w, s), Pieces(w, s));
            && pieces != [] && pieces[1..] == Pieces(w, s[n..]) && Source(pieces[0]) == s[..n]
            && (pieces[0].Variable? ==> IsMarker(w, pieces[0].raw, pieces[0].name, |pieces[0].raw|))
            && (pieces[0].Literal? ==> MatchHead(w, s).None?)
            && forall vars :: Render(w, s, vars) == Filled(pieces[0], vars) + Render(w, s[n..], vars)
  {
    if MatchHead(w, s).Some? {
      var m := MatchHead(w, s).value;
      ScannerIsThePattern(w, s, m.name, m.end);
      MarkerAlone(w, s, m.name, m.end);
    }
  }

  lemma OneMorePiece(w: CharClass, s: string, n: nat, p: Piece, rest: seq<Piece>)
    requires n <= |s| && Source(p) == s[..n] && Sources(rest) == s[n..] && Leftmost(w, rest)
    requires match p case Literal(_) => MatchHead(w, s).None? case Variable(raw, name) => IsMarker(w, raw, name, |raw|)
    ensures Sources([p] + rest) == s && Leftmost(w, [p] + rest)
  {
    var all := [p] + rest;
    assert all[0..] == all && all[1..] == rest && s == s[..n] + s[n..];
    forall i | 0 < i < |all| ensures all[i] == rest[i - 1] && all[i..] == rest[i - 1..] {}
  }

  lemma {:induction false} PiecesAreLeftmost(w: CharClass, s: string)
    requires WordClass(w)
    ensures Sources(Pieces(w, s)) == s && Leftmost(w, Pieces(w, s))
  {
    if s != "" {
      var n, p, rest := HeadLength(w, s), Pieces(w, s)[0], Pieces(w, s)[1..];
      PiecesHead(w, s);
      PiecesAreLeftmost(w, s[n..]);
      OneMorePiece(w, s, n, p, rest);
      assert Pieces(w, s) == [p] + rest;
    }
  }

  lemma {:induction false} RenderFills(w: CharClass, s: string, vars: map<string, string>)
    requires WordClass(w)
    ensures Render(w, s, vars) == Fill(Pieces(w, s), vars)
  {
    if s != "" {
      PiecesHead(w, s);
      RenderFills(w, s[HeadLength(w, s)..], vars);
    }
  }

  /** The pieces make up the template, the split is the leftmost one, and rendering only fills the pieces: values are never rescanned. */
  lemma RenderFillsPieces(w: CharClass, s: string)
    requires WordClass(w)
    ensures Sources(Pieces(w, s)) == s && Leftmost(w, Pieces(w, s))
    ensures forall vars :: Render(w, s, vars) == Fill(Pieces(w, s), vars)
  {
    PiecesAreLeftmost(w, s);
    forall vars ensures Render(w, s, vars) == Fill(Pieces(w, s), vars) { RenderFills(w, s, vars); }
  }

  // --- The text that comes out ---

  /** A marker is replaced by the value of its variable, or by nothing if there is no such variable. */
  lemma MarkerIsReplaced(w: CharClass, s: string, name: string, end: nat, vars: map<string, string>)
    requires WordClass(w) && IsMarker(w, s, name, end)
    ensures end <= |s|
    ensures name in vars ==> Render(w, s, vars) == vars[name] + Render(w, s[end..], vars)
    ensures name !in vars ==> Render(w, s, vars) == Render(w, s[end..], vars)
  {
    ScannerIsThePattern(w, s, name, end);
  }

  /** What stands in the place of each piece: a literal itself, a variable's own value, or nothing. */
  ghost predicate Replacements(pieces: seq<Piece>, vars: map<string, string>, texts: seq<string>) {
    && |texts| == |pieces|
    && forall i :: 0 <= i < |pieces| ==>
         match pieces[i]
         case Literal(c) => texts[i] == [c]
         case Variable(_, name) => texts[i] == if name in vars then vars[name] else ""
  }

  function Concat(texts: seq<string>): string {
    if texts == [] then "" else texts[0] + Concat(texts[1..])
  }

  lemma {:induction false} FillConcats(pieces: seq<Piece>, vars: map<string, string>, texts: seq<string>)
    requires Replacements(pieces, vars, texts)
    ensures Fill(pieces, vars) == Concat(texts)
  {
    if pieces != [] { FillConcats(pieces[1..], vars, texts[1..]); }
  }

  /** The rendering is the literals and the values themselves, in the order in which the template has them. */
  lemma RenderIsTheReplacements(w: CharClass, s: string, vars: map<string, string>, texts: seq<string>)
    requires WordClass(w) && Replacements(Pieces(w, s), vars, texts)
    ensures Sources(Pieces(w, s)) == s && Leftmost(w, Pieces(w, s))
    ensures Render(w, s, vars) == Concat(texts)
  {
    RenderFillsPieces(w, s);
    FillConcats(Pieces(w, s), vars, texts);
  }

  /** Rendering looks at no variable outside the detected ones. */
  lemma {:induction false} RenderDependsOnDetected(w: CharClass, s: string, v1: map<string, string>, v2: map<string, string>)
    requires forall name :: name in Detect(w, s) ==> Lookup(v1, name) == Lookup(v2, name)
    ensures Render(w, s, v1) == Render(w, s, v2)
  {
    if s != "" {
      match MatchHead(w, s)
      case Some(m) => RenderDependsOnDetected(w, s[m.end..], v1, v2);
      case None => RenderDependsOnDetected(w, s[1..], v1, v2);
    }
  }

  function Occurrences(w: CharClass, s: string, name: string): nat {
    if s == "" then 0
    else match MatchHead(w, s)
      case Some(m) => (if m.name == name then 1 else 0) + Occurrences(w, s[m.end..], name)
      case None => Occurrences(w, s[1..], name)
  }

  lemma {:induction false} LongerValueLongerText(w: CharClass, s: string, vars: map<string, string>, name: string)
    ensures |Render(w, s, vars[name := "x"])| == |Render(w, s, vars[name := ""])| + Occurrences(w, s, name)
    ensures name in Detect(w, s) <==> Occurrences(w, s, name) > 0
  {
    if s != "" {
      match MatchHead(w, s)
      case Some(m) => LongerValueLongerText(w, s[m.end..], vars, name);
      case None => LongerValueLongerText(w, s[1..], vars, name);
    }
  }

  ghost predicate Differ(w: CharClass, s: string, vars: map<string, string>, name: string, x: string, y: string) {
    Render(w, s, vars[name := x]) != Render(w, s, vars[name := y])
  }

  /** A variable is detected exactly when its value can make a difference to the rendered text. */
  lemma DetectedIffItMatters(w: CharClass, s: string, vars: map<string, string>, name: string)
    ensures name in Detect(w, s) <==>
            exists x, y :: Differ(w, s, vars, name, x, y)
  {
    LongerValueLongerText(w, s, vars, name);
    if name in Detect(w, s) {
      assert Differ(w, s, vars, name, "x", "");
    } else {
      forall x, y ensures !Differ(w, s, vars, name, x, y) {
        RenderDependsOnDetected(w, s, vars[name := x], vars[name := y]);
      }
    }
  }

  // --- Stripping and the fallback ---

  lemma {:induction false} DetectLStrip(w: CharClass, s: string)
    ensures Detect(w, LStrip(s)) == Detect(w, s)
  {
    if s != "" && IsSpace(s[0]) { DetectLStrip(w, s[1..]); }
  }

  lemma MarkerIgnoresTrailingSpace(w: CharClass, s: string, c: char, name: string, end: nat)
    requires IsSpace(c)
    ensures IsMarker(w, s + [c], name, end) <==> IsMarker(w, s, name, end)
  {
    var t := s + [c];
    assert forall i :: 0 <= i < |s| ==> t[i] == s[i];
    assert !IsSpace('}');
    if IsMarker(w, t, name, end) {
      var a: nat, b: nat :| MarkerShape(w, t, a, b, end) && t[a..b] == name;
      assert t[end - 1] == '}' && end <= |s|;
      assert MarkerShape(w, s, a, b, end);
      assert s[a..b] == t[a..b];
    }
    if IsMarker(w, s, name, end) {
      var a: nat, b: nat :| MarkerShape(w, s, a, b, end) && s[a..b] == name;
      assert MarkerShape(w, t, a, b, end);
      assert s[a..b] == t[a..b];
    }
  }

  lemma MatchIgnoresTrailingSpace(w: CharClass, s: string, c: char)
    requires WordClass(w) && IsSpace(c)
    ensures MatchHead(w, s + [c]) == MatchHead(w, s)
  {
    forall name, end: nat ensures MatchHead(w, s + [c]) == Some(Marker(name, end)) <==> MatchHead(w, s) == Some(Marker(name, end)) {
      ScannerIsThePattern(w, s + [c], name, end);
      ScannerIsThePattern(w, s, name, end);
      MarkerIgnoresTrailingSpace(w, s, c, name, end);
    }
    var h1, h2 := MatchHead(w, s + [c]), MatchHead(w, s);
    assert h1.Some? ==> h1 == Some(Marker(h1.value.name, h1.value.end));
    assert h2.Some? ==> h2 == Some(Marker(h2.value.name, h2.value.end));
  }

  lemma {:induction false} DetectTrailingSpace(w: CharClass, s: string, c: char)
    requires WordClass(w) && IsSpace(c)
    ensures Detect(w, s + [c]) == Detect(w, s)
  {
    MatchIgnoresTrailingSpace(w, s, c);
    var t := s + [c];
    if s == "" {
      assert t[1..] == "";
    } else {
      match MatchHead(w, s) {
        case Some(m) =>
          assert t[m.end..] == s[m.end..] + [c];
          DetectTrailingSpace(w, s[m.end..], c);
        case None =>
          assert t[1..] == s[1..] + [c];
          DetectTrailingSpace(w, s[1..], c);
      }
    }
  }

  lemma {:induction false} DetectRStrip(w: CharClass, s: string)
    requires WordClass(w)
    ensures Detect(w, RStrip(s)) == Detect(w, s)
  {
    if s != "" && IsSpace(s[|s| - 1]) {
      var front, c := s[..|s| - 1], s[|s| - 1];
      assert s == front + [c] && RStrip(s) == RStrip(front);
      DetectRStrip(w, front);
      DetectTrailingSpace(w, front, c);
    }
  }

  const FALLBACK_OPENING := "You are a helpful assistant."
  const FALLBACK_MIDDLE := " Answer questions accurately"
  const FALLBACK_END := " and concisely."
  const FALLBACK_SYSTEM_PROMPT := FALLBACK_OPENING + FALLBACK_MIDDLE + FALLBACK_END

  function Template(systemPrompt: Option<string>): string {
    Strip(if systemPrompt.None? || systemPrompt.value == "" then FALLBACK_SYSTEM_PROMPT else systemPrompt.value)
  }

  ghost predicate AllSpace(s: string) {
    forall i :: 0 <= i < |s| ==> IsSpace(s[i])
  }

  /** Stripping takes away white space at both ends, all of it and nothing else. */
  lemma StripCuts(s: string) returns (before: string, after: string)
    ensures AllSpace(before) && AllSpace(after) && before + Strip(s) + after == s
    ensures Strip(s) != "" ==> !IsSpace(Strip(s)[0]) && !IsSpace(Strip(s)[|Strip(s)| - 1])
  {
    before := LStripCuts(s);
    after := RStripCuts(LStrip(s));
    assert before + (Strip(s) + after) == before + Strip(s) + after;
  }

  /** The template is what is given, without the white space around it; nothing and the empty text count as the fallback. */
  lemma TemplateIsTrimmed(given: string) returns (before: string, after: string)
    requires given != ""
    ensures Template(None) == Template(Some("")) == Template(Some(FALLBACK_SYSTEM_PROMPT))
    ensures AllSpace(before) && AllSpace(after) && before + Template(Some(given)) + after == given
    ensures var t := Template(Some(given)); t != "" ==> !IsSpace(t[0]) && !IsSpace(t[|t| - 1])
  {
    before, after := StripCuts(given);
  }

  lemma {:induction false} LStripCuts(s: string) returns (before: string)
    ensures AllSpace(before) && s == before + LStrip(s)
    ensures LStrip(s) != "" ==> !IsSpace(LStrip(s)[0])
  {
    before := "";
    if s != "" && IsSpace(s[0]) {
      var rest := LStripCuts(s[1..]);
      before := [s[0]] + rest;
      assert s == [s[0]] + s[1..];
    }
  }

  lemma {:induction false} RStripCuts(s: string) returns (after: string)
    ensures AllSpace(after) && s == RStrip(s) + after
    ensures RStrip(s) != "" ==> RStrip(s)[0] == s[0] && !IsSpace(RStrip(s)[|RStrip(s)| - 1])
  {
    after := "";
    if s != "" && IsSpace(s[|s| - 1]) {
      var rest := RStripCuts(s[..|s| - 1]);
      after := rest + [s[|s| - 1]];
      assert s == s[..|s| - 1] + [s[|s| - 1]];
    }
  }

  /** What the pipeline looks for before it decides to retrieve anything. */
  function RequiredVars(w: CharClass, systemPrompt: Option<string>): set<string> {
    Detect(w, if systemPrompt.None? then "" else systemPrompt.value)
  }

  lemma {:induction false} NoBraceNoMarker(w: CharClass, s: string)
    requires '{' !in s
    ensures Detect(w, s) == {}
  {
    if s != "" {
      assert s[0] in s;
      NoBraceNoMarker(w, s[1..]);
    }
  }

  lemma FallbackHasNoMarker(w: CharClass)
    ensures Detect(w, FALLBACK_SYSTEM_PROMPT) == {}
  {
    assert '{' !in FALLBACK_OPENING;
    assert '{' !in FALLBACK_MIDDLE;
    assert '{' !in FALLBACK_END;
    NoBraceNoMarker(w, FALLBACK_SYSTEM_PROMPT);
  }

  /** Stripping and falling back never bring in a marker that was not detected. */
  lemma TemplateVarsAreDetected(w: CharClass, systemPrompt: Option<string>)
    requires WordClass(w)
    ensures Detect(w, Template(systemPrompt)) == RequiredVars(w, systemPrompt)
  {
    var base := if systemPrompt.None? || systemPrompt.value == "" then FALLBACK_SYSTEM_PROMPT else systemPrompt.value;
    DetectLStrip(w, base);
    DetectRStrip(w, LStrip(base));
    if systemPrompt.None? || systemPrompt.value == "" { FallbackHasNoMarker(w); }
  }

  /** The pipeline may leave a variable empty when it was not detected: the system message is the same. */
  lemma UndetectedMayStayEmpty(w: CharClass, systemPrompt: Option<string>, vars: map<string, string>, name: string, value: string)
    requires WordClass(w) && name !in RequiredVars(w, systemPrompt)
    ensures Render(w, Template(systemPrompt), vars[name := ""]) == Render(w, Template(systemPrompt), vars[name := value])
  {
    TemplateVarsAreDetected(w, systemPrompt);
    RenderDependsOnDetected(w, Template(systemPrompt), vars[name := ""], vars[name := value]);
  }

  // --- Budgets ---

  function Tokens(s: string): nat {
    if |s| / 4 > 1 then |s| / 4 else 1
  }

  /** A token for every four characters, rounded down, but never less than one. */
  lemma TokensRoundDown(s: string)
    ensures |s| < 4 ==> Tokens(s) == 1
    ensures |s| >= 4 ==> 4 * Tokens(s) <= |s| < 4 * Tokens(s) + 4
  {
  }

  function Cost(parts: seq<string>): nat {
    if parts == [] then 0 else Cost(parts[..|parts| - 1]) + Tokens(parts[|parts| - 1])
  }

  lemma {:induction false} CostConcat(a: seq<string>, b: seq<string>)
    ensures Cost(a + b) == Cost(a) + Cost(b)
    ensures Cost(b) >= |b|
  {
    if b == [] {
      assert a + b == a;
    } else {
      assert (a + b)[..|a + b| - 1] == a + b[..|b| - 1];
      CostConcat(a, b[..|b| - 1]);
    }
  }

  /** k is the length of the longest prefix that fits, and exactly the shorter ones fit too. */
  ghost predicate LongestPrefix(parts: seq<string>, budget: int, k: nat) {
    k <= |parts| && forall j :: 0 <= j <= |parts| ==> (j == 0 || Cost(parts[..j]) <= budget <==> j <= k)
  }

  /** k is the start of the longest suffix that fits. */
  ghost predicate LongestSuffix(parts: seq<string>, budget: int, k: nat) {
    k <= |parts| && forall j :: 0 <= j <= |parts| ==> (j == |parts| || Cost(parts[j..]) <= budget <==> j >= k)
  }

  lemma PrefixIsLongest(parts: seq<string>, budget: int, k: nat)
    requires k <= |parts| && (k == 0 || Cost(parts[..k]) <= budget)
    requires k < |parts| ==> Cost(parts[..k + 1]) > budget
    ensures LongestPrefix(parts, budget, k)
  {
    forall j | 0 <= j <= |parts| ensures j == 0 || Cost(parts[..j]) <= budget <==> j <= k {
      if j <= k {
        assert parts[..k] == parts[..j] + parts[j..k];
        CostConcat(parts[..j], parts[j..k]);
      } else {
        assert parts[..j] == parts[..k + 1] + parts[k + 1..j];
        CostConcat(parts[..k + 1], parts[k + 1..j]);
      }
    }
  }

  lemma SuffixIsLongest(parts: seq<string>, budget: int, k: nat)
    requires k <= |parts| && (k == |parts| || Cost(parts[k..]) <= budget)
    requires k > 0 ==> Cost(parts[k - 1..]) > budget
    ensures LongestSuffix(parts, budget, k)
  {
    forall j | 0 <= j <= |parts| ensures j == |parts| || Cost(parts[j..]) <= budget <==> j >= k {
      if j >= k {
        assert parts[k..] == parts[k..j] + parts[j..];
        CostConcat(parts[k..j], parts[j..]);
      } else {
        assert parts[j..] == parts[j..k - 1] + parts[k - 1..];
        CostConcat(parts[j..k - 1], parts[k - 1..]);
      }
    }
  }

  // --- Context entries ---

  datatype ContextChunk = ContextChunk(title: string, content: string)

  function Entry(i: nat, c: ContextChunk): string {
    "[" + Decimal(i) + "] " + (if c.title != "" then c.title + "\n" + c.content else c.content)
  }

  function Entries(chunks: seq<ContextChunk>): (r: seq<string>)
    ensures |r| == |chunks| && forall i :: 0 <= i < |chunks| ==> r[i] == Entry(i + 1, chunks[i])
  {
    seq(|chunks|, i requires 0 <= i < |chunks| => Entry(i + 1, chunks[i]))
  }

  /** An entry is its label, the title on the same line if there is one, and the whole content at the end. */
  lemma EntryHoldsTheChunk(i: nat, c: ContextChunk)
    ensures "[" + Decimal(i) + "] " <= Entry(i, c)
    ensures |c.content| <= |Entry(i, c)| && Entry(i, c)[|Entry(i, c)| - |c.content|..] == c.content
    ensures |Entry(i, c)| == |Decimal(i)| + 3 + (if c.title == "" then 0 else |c.title| + 1) + |c.content|
    ensures c.title != "" ==> Entry(i, c)[|Decimal(i)| + 3..|Decimal(i)| + 3 + |c.title| + 1] == c.title + "\n"
  {
    var tag := "[" + Decimal(i) + "] ";
    var body := if c.title != "" then c.title + "\n" + c.content else c.content;
    assert Entry(i, c) == tag + body;
    assert |tag| == |Decimal(i)| + 3;
  }

  /** Floor division lets an entry exceed four characters per token by at most three. */
  lemma {:induction false} JoinedLength(parts: seq<string>)
    requires parts != []
    ensures |Join("\n\n", parts)| <= 4 * Cost(parts) + 3 * |parts| + 2 * (|parts| - 1)
  {
    if |parts| > 1 {
      JoinedLength(parts[..|parts| - 1]);
    } else {
      assert parts[..0] == [];
    }
  }

  /** Despite the rounding and the uncounted separators, a rendered context of budget B stays below 9 B characters. */
  lemma ContextIsBounded(chunks: seq<ContextChunk>, budget: int, k: nat)
    requires LongestPrefix(Entries(chunks), budget, k) && k > 0
    ensures k <= budget
    ensures |Join("\n\n", Entries(chunks)[..k])| <= 9 * budget - 2
  {
    var kept := Entries(chunks)[..k];
    CostConcat([], kept);
    assert [] + kept == kept;
    JoinedLength(kept);
  }
}
