/** What cutting and joining text conserves (the texts behind app/knowledge/chunk_service.py). */
module ChunkText {
  import opened Text

  // --- Words: len(s.split()) counts maximal runs of non-space characters ---

  function Words(s: string): nat {
    if s == "" then 0
    else
      var n := |s| - 1;
      Words(s[..n]) + (if !IsSpace(s[n]) && (n == 0 || IsSpace(s[n - 1])) then 1 else 0)
  }

  predicate EndsInWord(s: string) {
    s != "" && !IsSpace(s[|s| - 1])
  }

  predicate StartsInWord(s: string) {
    s != "" && !IsSpace(s[0])
  }

  /** Concatenation loses one word exactly when it glues two words together. */
  lemma {:induction false} WordsConcat(a: string, b: string)
    ensures Words(a + b) == Words(a) + Words(b) - (if EndsInWord(a) && StartsInWord(b) then 1 else 0)
  {
    if b == "" {
      assert a + b == a;
    } else {
      var n := |b| - 1;
      assert (a + b)[..|a + b| - 1] == a + b[..n];
      WordsConcat(a, b[..n]);
      if n == 0 {
        assert b[..n] == "";
      } else {
        assert b[..n][0] == b[0];
      }
    }
  }

  function TotalWords(parts: seq<string>): nat {
    if parts == [] then 0 else TotalWords(parts[..|parts| - 1]) + Words(parts[|parts| - 1])
  }

  const BLANK_LINE := "\n\n"

  /** A merge has exactly the words of its parts. */
  lemma {:induction false} MergeKeepsWords(parts: seq<string>)
    ensures Words(Join(BLANK_LINE, parts)) == TotalWords(parts)
  {
    if |parts| == 1 {
      assert parts[..0] == [];
    } else if |parts| > 1 {
      var front := Join(BLANK_LINE, parts[..|parts| - 1]);
      MergeKeepsWords(parts[..|parts| - 1]);
      WordsConcat(front, BLANK_LINE);
      WordsConcat(front + BLANK_LINE, parts[|parts| - 1]);
      assert Words("\n") == 0 && Words(BLANK_LINE) == 0 by {
        assert "\n"[..0] == "" && BLANK_LINE[..1] == "\n";
      }
    }
  }

  // --- Cutting ---

  /** Strictly increasing positions strictly inside a text of the given length. */
  ghost predicate ValidCuts(cuts: seq<int>, length: nat) {
    && cuts != []
    && (forall i :: 0 <= i < |cuts| ==> 0 < cuts[i] < length)
    && (forall i, j :: 0 <= i < j < |cuts| ==> cuts[i] < cuts[j])
  }

  /** The part that ends at the first cut, ..., the part after the last cut; also for a single part. */
  function Segments(s: string, cuts: seq<int>): (parts: seq<string>)
    requires forall i :: 0 <= i < |cuts| ==> 0 <= cuts[i] <= |s|
    requires forall i, j :: 0 <= i < j < |cuts| ==> cuts[i] <= cuts[j]
    ensures |parts| == |cuts| + 1
  {
    var b := [0] + cuts + [|s|];
    seq(|cuts| + 1, i requires 0 <= i <= |cuts| => s[b[i]..b[i + 1]])
  }

  function Concat(parts: seq<string>): string {
    if parts == [] then "" else Concat(parts[..|parts| - 1]) + parts[|parts| - 1]
  }

  /** The text with sep put in at every cut. */
  function InsertAt(s: string, cuts: seq<int>, sep: string): string
    requires forall i :: 0 <= i < |cuts| ==> 0 <= cuts[i] <= |s|
    requires forall i, j :: 0 <= i < j < |cuts| ==> cuts[i] <= cuts[j]
    decreases |cuts|
  {
    if cuts == [] then s
    else
      var n := |cuts| - 1;
      InsertAt(s[..cuts[n]], cuts[..n], sep) + sep + s[cuts[n]..]
  }

  lemma SegmentsFront(s: string, cuts: seq<int>)
    requires cuts != []
    requires forall i :: 0 <= i < |cuts| ==> 0 <= cuts[i] <= |s|
    requires forall i, j :: 0 <= i < j < |cuts| ==> cuts[i] <= cuts[j]
    ensures var n := |cuts| - 1;
            Segments(s, cuts) == Segments(s[..cuts[n]], cuts[..n]) + [s[cuts[n]..]]
  {
    var n := |cuts| - 1;
    var front := s[..cuts[n]];
    var b := [0] + cuts + [|s|];
    var c := [0] + cuts[..n] + [|front|];
    forall i | 0 <= i <= n ensures Segments(s, cuts)[i] == Segments(front, cuts[..n])[i] {
      assert b[i] == c[i] && b[i + 1] == c[i + 1];
      SliceOfFront(s, cuts[n], b[i], b[i + 1]);
    }
    assert b[n + 1] == cuts[n] && b[n + 2] == |s|;
    assert Segments(s, cuts)[n + 1] == s[cuts[n]..];
  }

  lemma SliceOfFront(s: string, m: nat, x: nat, y: nat)
    requires x <= y <= m <= |s|
    ensures s[..m][x..y] == s[x..y]
  {
  }

  lemma NoCutsOnePart(s: string)
    ensures Segments(s, []) == [s] && [s][..0] == []
  {
    assert ([0] + [] + [|s|])[0] == 0 && ([0] + [] + [|s|])[1] == |s|;
    assert s[0..|s|] == s;
  }

  lemma FrontCuts(s: string, cuts: seq<int>)
    requires cuts != [] && ValidCuts(cuts, |s|)
    ensures var n := |cuts| - 1;
            && s == s[..cuts[n]] + s[cuts[n]..] && s[..cuts[n]] != "" && s[cuts[n]..] != ""
            && (cuts[..n] != [] ==> ValidCuts(cuts[..n], |s[..cuts[n]]|))
  {
  }

  /** The parts are non-empty and make up the text. */
  lemma {:induction false} SegmentsMakeUpTheText(s: string, cuts: seq<int>)
    requires s != "" && (cuts != [] ==> ValidCuts(cuts, |s|))
    ensures Concat(Segments(s, cuts)) == s
    ensures forall i :: 0 <= i <= |cuts| ==> Segments(s, cuts)[i] != ""
    decreases |cuts|
  {
    if cuts == [] {
      NoCutsOnePart(s);
    } else {
      SegmentsFront(s, cuts);
      FrontCuts(s, cuts);
      SegmentsMakeUpTheText(s[..cuts[|cuts| - 1]], cuts[..|cuts| - 1]);
    }
  }

  /** Merging the parts puts a blank line at exactly the cuts. */
  lemma {:induction false} JoinedSegments(s: string, cuts: seq<int>)
    requires s != "" && (cuts != [] ==> ValidCuts(cuts, |s|))
    ensures Join(BLANK_LINE, Segments(s, cuts)) == InsertAt(s, cuts, BLANK_LINE)
    decreases |cuts|
  {
    if cuts == [] {
      NoCutsOnePart(s);
    } else {
      SegmentsFront(s, cuts);
      FrontCuts(s, cuts);
      JoinedSegments(s[..cuts[|cuts| - 1]], cuts[..|cuts| - 1]);
    }
  }

  /** Each cut costs or gains at most one word. */
  lemma {:induction false} WordsOfSegments(s: string, cuts: seq<int>)
    requires s != "" && (cuts != [] ==> ValidCuts(cuts, |s|))
    ensures Words(s) <= TotalWords(Segments(s, cuts)) <= Words(s) + |cuts|
    decreases |cuts|
  {
    if cuts == [] {
      NoCutsOnePart(s);
    } else {
      var n := |cuts| - 1;
      SegmentsFront(s, cuts);
      FrontCuts(s, cuts);
      WordsOfSegments(s[..cuts[n]], cuts[..n]);
      WordsConcat(s[..cuts[n]], s[cuts[n]..]);
    }
  }

  lemma {:induction false} InsertLength(s: string, cuts: seq<int>)
    requires forall i :: 0 <= i < |cuts| ==> 0 <= cuts[i] <= |s|
    requires forall i, j :: 0 <= i < j < |cuts| ==> cuts[i] < cuts[j]
    ensures |InsertAt(s, cuts, BLANK_LINE)| == |s| + 2 * |cuts|
    decreases |cuts|
  {
    if cuts != [] {
      var n := |cuts| - 1;
      InsertLength(s[..cuts[n]], cuts[..n]);
    }
  }

  /** Nothing else changes: the character at k moves on by two places for each cut at or before it. */
  lemma {:induction false} InsertKeepsCharacters(s: string, cuts: seq<int>, k: nat, c: nat)
    requires forall i :: 0 <= i < |cuts| ==> 0 <= cuts[i] <= |s|
    requires forall i, j :: 0 <= i < j < |cuts| ==> cuts[i] < cuts[j]
    requires k < |s| && c <= |cuts| && (forall i :: 0 <= i < |cuts| ==> (cuts[i] <= k <==> i < c))
    ensures k + 2 * c < |InsertAt(s, cuts, BLANK_LINE)| && InsertAt(s, cuts, BLANK_LINE)[k + 2 * c] == s[k]
    decreases |cuts|
  {
    if cuts != [] {
      var n := |cuts| - 1;
      var front := s[..cuts[n]];
      InsertLength(front, cuts[..n]);
      if c < |cuts| { InsertKeepsCharacters(front, cuts[..n], k, c); }
    }
  }
}
