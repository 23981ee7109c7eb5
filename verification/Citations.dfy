/** Citation numbers in generated text (app/chat/citations.py), and the labels they refer to (app/chat/prompt.py). */
module Citations {
  import opened Text
  import opened PromptSpec
  import opened Prompt

  ghost predicate BracketAt(text: string, i: nat, j: nat, n: nat) {
    && i + 1 < j < |text| && text[i] == '[' && text[j] == ']'
    && AllDigits(text[i + 1..j]) && Value(text[i + 1..j]) == n
  }

  /** The text contains the number n in square brackets. */
  ghost predicate Mentions(text: string, n: nat) {
    exists i: nat, j: nat :: BracketAt(text, i, j, n)
  }

  ghost predicate StrictlyIncreasing(s: seq<nat>) {
    forall i, j :: 0 <= i < j < |s| ==> s[i] < s[j]
  }

  /** Bracketed runs cannot overlap, so all of them start before i or at or after i. */
  ghost predicate FoundBefore(text: string, i: nat, valid: set<nat>, count: int) {
    forall n: nat :: n in valid <==> 1 <= n <= count && exists a: nat, b: nat :: a < i && BracketAt(text, a, b, n)
  }

  function DigitsEnd(text: string, i: nat): (j: nat)
    requires i <= |text|
    ensures i <= j <= |text| && AllDigits(text[i..j]) && (j < |text| ==> !IsDigit(text[j]))
    decreases |text| - i
  {
    if i < |text| && IsDigit(text[i]) then
      var j := DigitsEnd(text, i + 1);
      assert text[i..j] == [text[i]] + text[i + 1..j];
      j
    else i
  }

  /** A bracket at a is closed where its digits end, or not at all. */
  lemma BracketIsScanned(text: string, a: nat, b: nat, n: nat)
    requires a < |text|
    ensures BracketAt(text, a, b, n) <==>
            text[a] == '[' && b == DigitsEnd(text, a + 1) && a + 1 < b < |text| && text[b] == ']' && Value(text[a + 1..b]) == n
  {
    if BracketAt(text, a, b, n) {
      var d := DigitsEnd(text, a + 1);
      assert forall k :: a + 1 <= k < b ==> text[k] == text[a + 1..b][k - a - 1];
      assert forall k :: a + 1 <= k < d ==> text[k] == text[a + 1..d][k - a - 1];
    }
  }

  method ExtractCitations(text: string, chunkCount: int) returns (r: seq<nat>)
    ensures StrictlyIncreasing(r)
    ensures forall n: nat :: n in r <==> 1 <= n <= chunkCount && Mentions(text, n)
  {
    if chunkCount <= 0 {
      return [];
    }
    var valid: set<nat> := {};
    var i := 0;
    while i < |text|
      invariant 0 <= i <= |text|
      invariant FoundBefore(text, i, valid, chunkCount)
    {
      ghost var was := valid;
      if text[i] == '[' {
        var j := DigitsEnd(text, i + 1);
        if i + 1 < j < |text| && text[j] == ']' {
          var num := Value(text[i + 1..j]);
          if 1 <= num <= chunkCount {
            valid := valid + {num};
          }
        }
      }
      ScanStep(text, i, was, valid, chunkCount);
      i := i + 1;
    }
    forall n: nat ensures n in valid <==> 1 <= n <= chunkCount && Mentions(text, n) {
      if Mentions(text, n) {
        var a: nat, b: nat :| BracketAt(text, a, b, n);
        assert a < |text|;
      }
    }
    r := Sorted(valid);
  }

  /** Looking at one more position finds the bracket that opens there, if any. */
  lemma ScanStep(text: string, i: nat, was: set<nat>, now: set<nat>, count: int)
    requires i < |text| && FoundBefore(text, i, was, count)
    requires var j := DigitsEnd(text, i + 1);
             now == if text[i] == '[' && i + 1 < j < |text| && text[j] == ']' && 1 <= Value(text[i + 1..j]) <= count
                    then was + {Value(text[i + 1..j])} else was
    ensures FoundBefore(text, i + 1, now, count)
  {
    var j := DigitsEnd(text, i + 1);
    forall n: nat ensures n in now <==> 1 <= n <= count && exists a: nat, b: nat :: a < i + 1 && BracketAt(text, a, b, n) {
      BracketIsScanned(text, i, j, n);
      if n in now && n !in was { assert BracketAt(text, i, j, n); }
      if exists a: nat, b: nat :: a < i + 1 && BracketAt(text, a, b, n) {
        var a: nat, b: nat :| a < i + 1 && BracketAt(text, a, b, n);
        if a == i { BracketIsScanned(text, i, b, n); }
      }
    }
  }

  method Sorted(numbers: set<nat>) returns (r: seq<nat>)
    ensures StrictlyIncreasing(r) && forall n :: n in r <==> n in numbers
  {
    r := [];
    var rest := numbers;
    while rest != {}
      invariant rest <= numbers
      invariant StrictlyIncreasing(r) && forall n :: n in r <==> n in numbers && n !in rest
      invariant forall i, n :: 0 <= i < |r| && n in rest ==> r[i] < n
    {
      LeastExists(rest);
      var least: nat :| least in rest && IsLeast(rest, least);
      ghost var was := r;
      r := r + [least];
      rest := rest - {least};
      assert forall n :: n in r <==> n in was || n == least;
    }
  }

  predicate IsLeast(s: set<nat>, x: nat) {
    x in s && forall n :: n in s ==> x <= n
  }

  lemma LeastExists(s: set<nat>)
    requires s != {}
    ensures exists least: nat :: least in s && IsLeast(s, least)
  {
    var x :| x in s;
    var rest := s - {x};
    assert forall n :: n in s ==> n == x || n in rest;
    if rest == {} {
      assert IsLeast(s, x);
    } else {
      LeastExists(rest);
      var y: nat :| y in rest && IsLeast(rest, y);
      assert if x < y then IsLeast(s, x) else IsLeast(s, y);
    }
  }

  /** A strictly increasing sequence is determined by its members. */
  lemma {:induction false} IncreasingIsUnique(a: seq<nat>, b: seq<nat>)
    requires StrictlyIncreasing(a) && StrictlyIncreasing(b) && forall n :: n in a <==> n in b
    ensures a == b
  {
    if a == [] {
      assert forall i :: 0 <= i < |b| ==> b[i] in b;
    } else {
      var m := |a| - 1;
      assert a[m] in a;
      var k :| 0 <= k < |b| && b[k] == a[m];
      assert b[|b| - 1] in b;
      var i :| 0 <= i < |a| && a[i] == b[|b| - 1];
      assert k == |b| - 1;
      forall n ensures n in a[..m] <==> n in b[..k] {
        assert n in a[..m] <==> n in a && n != a[m];
        assert n in b[..k] <==> n in b && n != b[k];
      }
      IncreasingIsUnique(a[..m], b[..k]);
      assert a == a[..m] + [a[m]] && b == b[..k] + [b[k]];
    }
  }

  // --- Labels read back ---

  predicate Neutral(sep: string) {
    sep != "" && forall i :: 0 <= i < |sep| ==> !IsDigit(sep[i]) && sep[i] != '[' && sep[i] != ']'
  }

  lemma SliceOfSlice(t: string, lo: nat, hi: nat, a: nat, b: nat)
    requires lo <= hi <= |t| && a <= b <= hi - lo
    ensures t[lo..hi][a..b] == t[lo + a..lo + b]
  {
    var part := t[lo..hi];
    var left, right := part[a..b], t[lo + a..lo + b];
    assert |left| == |right|;
    assert forall k :: 0 <= k < b - a ==> left[k] == part[a + k] == t[lo + a + k] == right[k];
    assert left == right;
  }

  lemma MentionsShift(t: string, part: string, off: nat, n: nat)
    requires off + |part| <= |t| && t[off..off + |part|] == part && Mentions(part, n)
    ensures Mentions(t, n)
  {
    var i: nat, j: nat :| BracketAt(part, i, j, n);
    SliceOfSlice(t, off, off + |part|, i + 1, j);
    assert t[off + i] == part[i] && t[off + j] == part[j];
    assert BracketAt(t, off + i, off + j, n);
  }

  /** A bracketed number lies on one side of any position that is no digit and no bracket. */
  lemma BracketAvoids(t: string, i: nat, j: nat, n: nat, k: nat)
    requires BracketAt(t, i, j, n) && k < |t| && !IsDigit(t[k]) && t[k] != '[' && t[k] != ']'
    ensures j < k || k < i
  {
    assert forall m :: i + 1 <= m < j ==> t[m] == t[i + 1..j][m - i - 1];
  }

  lemma BracketInPart(t: string, part: string, off: nat, i: nat, j: nat, n: nat)
    requires BracketAt(t, i, j, n) && off <= i && j < off + |part| <= |t| && t[off..off + |part|] == part
    ensures Mentions(part, n)
  {
    SliceOfSlice(t, off, off + |part|, i - off + 1, j - off);
    assert part[i - off] == t[i] && part[j - off] == t[j];
    assert BracketAt(part, i - off, j - off, n);
  }

  /** No bracketed number straddles a separator. */
  lemma MentionsSplit(a: string, sep: string, b: string, n: nat)
    requires Neutral(sep)
    ensures Mentions(a + sep + b, n) <==> Mentions(a, n) || Mentions(b, n)
  {
    var t := a + sep + b;
    var off := |a| + |sep|;
    assert t[0..0 + |a|] == a && t[off..off + |b|] == b;
    if Mentions(t, n) {
      var i: nat, j: nat :| BracketAt(t, i, j, n);
      assert forall k :: |a| <= k < off ==> t[k] == sep[k - |a|];
      BracketAvoids(t, i, j, n, |a|);
      if j < |a| {
        BracketInPart(t, a, 0, i, j, n);
      } else {
        BracketInPart(t, b, off, i, j, n);
      }
    }
    if Mentions(a, n) { MentionsShift(t, a, 0, n); }
    if Mentions(b, n) { MentionsShift(t, b, off, n); }
  }

  lemma LabelMentions(i: nat, n: nat)
    ensures Mentions("[" + Decimal(i) + "]", n) <==> n == i
  {
    var d := Decimal(i);
    var t := "[" + d + "]";
    assert t[0] == '[' && t[1..|d| + 1] == d && t[|d| + 1] == ']';
    assert forall k :: 1 <= k < |d| + 1 ==> IsDigit(t[k]) by {
      assert forall k :: 1 <= k < |d| + 1 ==> t[k] == d[k - 1];
    }
    assert BracketAt(t, 0, |d| + 1, i);
    if Mentions(t, n) {
      var a: nat, b: nat :| BracketAt(t, a, b, n);
    }
  }

  ghost predicate BodyMentions(c: ContextChunk, n: nat) {
    Mentions(c.title, n) || Mentions(c.content, n)
  }

  lemma NothingInNothing(n: nat)
    ensures !Mentions("", n)
  {
  }

  lemma EntryMentions(i: nat, c: ContextChunk, n: nat)
    ensures Mentions(Entry(i, c), n) <==> n == i || BodyMentions(c, n)
  {
    LabelMentions(i, n);
    NothingInNothing(n);
    var body := if c.title != "" then c.title + "\n" + c.content else c.content;
    MentionsSplit(c.title, "\n", c.content, n);
    MentionsSplit("[" + Decimal(i) + "]", " ", body, n);
    assert Entry(i, c) == ("[" + Decimal(i) + "]") + " " + body;
  }

  lemma {:induction false} JoinMentions(parts: seq<string>, n: nat)
    ensures Mentions(Join("\n\n", parts), n) <==> exists k :: 0 <= k < |parts| && Mentions(parts[k], n)
  {
    if parts == [] {
      NothingInNothing(n);
    } else if |parts| > 1 {
      var front := parts[..|parts| - 1];
      JoinMentions(front, n);
      MentionsSplit(Join("\n\n", front), "\n\n", parts[|parts| - 1], n);
      assert forall k :: 0 <= k < |front| ==> front[k] == parts[k];
    } else {
      assert parts[0] == Join("\n\n", parts);
    }
  }

  /** Exactly the numbers mentioned by a rendered context: its labels, and whatever its titles and contents mention. */
  lemma ContextMentions(chunks: seq<ContextChunk>, k: nat, n: nat)
    requires k <= |chunks|
    ensures Mentions(Join("\n\n", Entries(chunks)[..k]), n) <==>
            1 <= n <= k || exists i :: 0 <= i < k && BodyMentions(chunks[i], n)
  {
    var parts := Entries(chunks)[..k];
    JoinMentions(parts, n);
    forall i | 0 <= i < k ensures Mentions(parts[i], n) <==> n == i + 1 || BodyMentions(chunks[i], n) {
      EntryMentions(i + 1, chunks[i], n);
    }
    if 1 <= n <= k { assert Mentions(parts[n - 1], n); }
  }

  lemma PlaceholderMentionsNothing(n: nat)
    ensures !Mentions(EMPTY_CONTEXT_PLACEHOLDER, n)
  {
    assert '[' !in EMPTY_CONTEXT_PLACEHOLDER;
  }

  /** Extracting citations from a rendered context recovers its labels; without bracketed numbers in the chunks, only them. */
  lemma LabelsReadBack(chunks: seq<ContextChunk>, k: nat, count: int, r: seq<nat>)
    requires k <= |chunks| && k <= count
    requires StrictlyIncreasing(r)
    requires var text := if k == 0 then EMPTY_CONTEXT_PLACEHOLDER else Join("\n\n", Entries(chunks)[..k]);
             forall n: nat :: n in r <==> 1 <= n <= count && Mentions(text, n)
    ensures forall n: nat :: 1 <= n <= k ==> n in r
    ensures (forall i, n: nat :: 0 <= i < k ==> !BodyMentions(chunks[i], n)) ==> r == seq(k, i => i + 1)
  {
    forall n: nat ensures n in r <==> 1 <= n <= count && (1 <= n <= k || exists i :: 0 <= i < k && BodyMentions(chunks[i], n)) {
      if k == 0 { PlaceholderMentionsNothing(n); } else { ContextMentions(chunks, k, n); }
    }
    if forall i, n: nat :: 0 <= i < k ==> !BodyMentions(chunks[i], n) {
      var labels: seq<nat> := seq(k, i => i + 1);
      forall n: nat ensures n in labels <==> 1 <= n <= k {
        if 1 <= n <= k { assert labels[n - 1] == n; }
      }
      IncreasingIsUnique(r, labels);
    }
  }

  /** The two operations composed. */
  method RenderAndExtract(chunks: seq<ContextChunk>, maxTokens: int, count: int) returns (r: seq<nat>, kept: nat)
    ensures LongestPrefix(Entries(chunks), maxTokens, kept)
    ensures kept <= count ==> forall n: nat :: 1 <= n <= kept ==> n in r
    ensures kept <= count && (forall i, n: nat :: 0 <= i < kept ==> !BodyMentions(chunks[i], n)) ==> r == seq(kept, i => i + 1)
  {
    var text;
    text, kept := FormatContextChunks(chunks, maxTokens);
    r := ExtractCitations(text, count);
    if kept <= count { LabelsReadBack(chunks, kept, count, r); }
  }
}
