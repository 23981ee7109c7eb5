/** String operations of the host language that several components rely on. */
module Text {

  /** The characters str.isspace, str.strip, str.split and the regex class \s agree on. */
  predicate IsSpace(c: char) {
    || '\U{0009}' <= c <= '\U{000D}' || '\U{001C}' <= c <= '\U{0020}'
    || c == '\U{0085}' || c == '\U{00A0}' || c == '\U{1680}' || '\U{2000}' <= c <= '\U{200A}'
    || c == '\U{2028}' || c == '\U{2029}' || c == '\U{202F}' || c == '\U{205F}' || c == '\U{3000}'
  }

  function LStrip(s: string): string {
    if s != "" && IsSpace(s[0]) then LStrip(s[1..]) else s
  }

  function RStrip(s: string): string {
    if s != "" && IsSpace(s[|s| - 1]) then RStrip(s[..|s| - 1]) else s
  }

  function Strip(s: string): string {
    RStrip(LStrip(s))
  }

  function Join(sep: string, parts: seq<string>): string {
    if parts == [] then ""
    else if |parts| == 1 then parts[0]
    else Join(sep, parts[..|parts| - 1]) + sep + parts[|parts| - 1]
  }

  lemma {:induction false} JoinFront(sep: string, first: string, rest: seq<string>)
    requires rest != []
    ensures Join(sep, [first] + rest) == first + sep + Join(sep, rest)
  {
    var all := [first] + rest;
    assert all[..|all| - 1] == [first] + rest[..|rest| - 1];
    if |rest| == 1 {
      assert all[..1] == [first];
    } else {
      JoinFront(sep, first, rest[..|rest| - 1]);
    }
  }

  /** s.split(sep) for a one-character separator. */
  function Split(s: string, sep: char): (parts: seq<string>)
    ensures parts != []
  {
    if s == "" then [""]
    else if s[|s| - 1] == sep then Split(s[..|s| - 1], sep) + [""]
    else
      var front := Split(s[..|s| - 1], sep);
      front[..|front| - 1] + [front[|front| - 1] + [s[|s| - 1]]]
  }

  lemma {:induction false} SplitPieces(s: string, sep: char)
    ensures forall i :: 0 <= i < |Split(s, sep)| ==> sep !in Split(s, sep)[i]
    ensures Join([sep], Split(s, sep)) == s
  {
    PiecesLackSeparator(s, sep);
    JoinSplit(s, sep);
  }

  lemma {:induction false} PiecesLackSeparator(s: string, sep: char)
    ensures forall i :: 0 <= i < |Split(s, sep)| ==> sep !in Split(s, sep)[i]
  {
    if s != "" { PiecesLackSeparator(s[..|s| - 1], sep); }
  }

  lemma {:induction false} JoinSplit(s: string, sep: char)
    ensures Join([sep], Split(s, sep)) == s
  {
    if s != "" {
      var n := |s| - 1;
      var c := s[n];
      JoinSplit(s[..n], sep);
      var front := Split(s[..n], sep);
      assert s == s[..n] + [c];
      if c == sep {
        assert (front + [""])[..|front|] == front;
      } else {
        JoinLastGrows([sep], front[..|front| - 1], front[|front| - 1], [c]);
        assert front[..|front| - 1] + [front[|front| - 1]] == front;
      }
    }
  }

  lemma JoinLastGrows(sep: string, parts: seq<string>, last: string, more: string)
    ensures Join(sep, parts + [last + more]) == Join(sep, parts + [last]) + more
  {
    assert (parts + [last + more])[..|parts|] == parts == (parts + [last])[..|parts|];
  }

  /** How one more character at the end changes the parts. */
  lemma SplitOneMore(s: string, c: char, sep: char)
    ensures var (was, now) := (Split(s, sep), Split(s + [c], sep));
            now == if c == sep then was + [""] else was[..|was| - 1] + [was[|was| - 1] + [c]]
  {
    assert (s + [c])[..|s|] == s;
  }

  lemma JoinBeforeEmpty(parts: seq<string>, sep: char)
    requires |parts| > 1 && parts[|parts| - 1] == ""
    ensures Join([sep], parts) == Join([sep], parts[..|parts| - 1]) + [sep]
    ensures parts == parts[..|parts| - 1] + [""]
  {
  }

  /** Splitting undoes joining when no part contains the separator. */
  lemma {:induction false} SplitJoin(parts: seq<string>, sep: char)
    requires parts != [] && forall i :: 0 <= i < |parts| ==> sep !in parts[i]
    ensures Split(Join([sep], parts), sep) == parts
    decreases |parts|, if parts == [] then 0 else |parts[|parts| - 1]|
  {
    var n := |parts| - 1;
    if parts == [""] {
      assert Join([sep], parts) == "";
    } else if parts[n] == "" {
      JoinBeforeEmpty(parts, sep);
      SplitJoin(parts[..n], sep);
      SplitOneMore(Join([sep], parts[..n]), sep, sep);
    } else {
      var shorter := ShortenLast(parts, sep);
      SplitJoin(shorter, sep);
      SplitOneMore(Join([sep], shorter), parts[n][|parts[n]| - 1], sep);
      LastRestored(parts, shorter, n);
    }
  }

  lemma LastRestored(parts: seq<string>, shorter: seq<string>, n: nat)
    requires |parts| == n + 1 && parts[n] != "" && shorter == parts[..n] + [parts[n][..|parts[n]| - 1]]
    ensures |shorter| == n + 1 && shorter[..n] + [shorter[n] + [parts[n][|parts[n]| - 1]]] == parts
  {
    var m := |parts[n]| - 1;
    assert parts[n][..m] + [parts[n][m]] == parts[n];
  }

  /** The parts without the last character of the last one, which is the last character of the joined text. */
  lemma ShortenLast(parts: seq<string>, sep: char) returns (shorter: seq<string>)
    requires parts != [] && forall i :: 0 <= i < |parts| ==> sep !in parts[i]
    requires parts[|parts| - 1] != ""
    ensures shorter == parts[..|parts| - 1] + [parts[|parts| - 1][..|parts[|parts| - 1]| - 1]]
    ensures forall i :: 0 <= i < |shorter| ==> sep !in shorter[i]
    ensures Join([sep], parts) == Join([sep], shorter) + [parts[|parts| - 1][|parts[|parts| - 1]| - 1]]
    ensures parts[|parts| - 1][|parts[|parts| - 1]| - 1] != sep
  {
    var n := |parts| - 1;
    var last := parts[n];
    var m := |last| - 1;
    assert last == last[..m] + [last[m]];
    shorter := parts[..n] + [last[..m]];
    assert parts == parts[..n] + [last];
    JoinLastGrows([sep], parts[..n], last[..m], [last[m]]);
    assert last in parts && last[m] in last;
    forall i | 0 <= i < |shorter| ensures sep !in shorter[i] {
      assert forall c :: c in last[..m] ==> c in last;
    }
  }

  // --- Decimal numerals ---

  predicate IsDigit(c: char) {
    '0' <= c <= '9'
  }

  predicate AllDigits(s: string) {
    forall i :: 0 <= i < |s| ==> IsDigit(s[i])
  }

  function DigitValue(c: char): nat
    requires IsDigit(c)
  {
    c as int - '0' as int
  }

  function Digit(n: nat): (c: char)
    requires n < 10
    ensures IsDigit(c) && DigitValue(c) == n
  {
    ('0' as int + n) as char
  }

  /** int() of a run of digits. */
  function Value(s: string): nat
    requires AllDigits(s)
  {
    if s == "" then 0 else 10 * Value(s[..|s| - 1]) + DigitValue(s[|s| - 1])
  }

  /** str() of a number. */
  function Decimal(n: nat): (s: string)
    ensures s != "" && AllDigits(s) && Value(s) == n
  {
    if n < 10 then
      assert [Digit(n)] == "" + [Digit(n)];
      ValueOfLonger("", Digit(n));
      [Digit(n)]
    else
      ValueOfLonger(Decimal(n / 10), Digit(n % 10));
      Decimal(n / 10) + [Digit(n % 10)]
  }

  lemma ValueOfLonger(front: string, last: char)
    requires AllDigits(front) && IsDigit(last)
    ensures AllDigits(front + [last]) && Value(front + [last]) == 10 * Value(front) + DigitValue(last)
  {
    assert (front + [last])[..|front|] == front;
  }
}
