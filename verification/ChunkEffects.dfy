/** What a split and a merge leave in the chunk table, told by the rows themselves (app/knowledge/chunk_service.py). */
module ChunkEffects {
  import opened Wrappers
  import opened Sequences
  import opened Text
  import opened Sorting
  import opened ChunkText
  import opened ChunkSpec

  // --- Splitting ---

  /** A split succeeds iff the chunk exists, a position is given, and all positions are strictly inside the text. */
  lemma SplitSucceedsIff(db: Db, id: nat, positions: seq<int>, cuts: seq<int>, userId: nat)
    requires SortedSetOf(cuts, positions)
    ensures var (db', r) := SplitStep(db, id, cuts, userId);
            && (r.Ok? <==> id in db.chunks && positions != [] && forall p :: p in positions ==> 0 < p < |db.chunks[id].content|)
            && (r.Err? ==> db' == db && r.error == if id in db.chunks then InvalidSplitPositions else NotFound(id))
  {
    if id in db.chunks { CutsAreValidIff(cuts, positions, |db.chunks[id].content|); }
  }

  lemma CutsAreValidIff(cuts: seq<int>, positions: seq<int>, length: nat)
    requires SortedSetOf(cuts, positions)
    ensures ValidCuts(cuts, length) <==> positions != [] && forall p :: p in positions ==> 0 < p < length
  {
    if positions != [] { assert positions[0] in positions; }
    if cuts != [] { assert cuts[0] in cuts; }
    if ValidCuts(cuts, length) {
      forall p | p in positions ensures 0 < p < length {
        assert p in cuts;
        var i :| 0 <= i < |cuts| && cuts[i] == p;
      }
    }
    if positions != [] && forall p :: p in positions ==> 0 < p < length {
      assert positions[0] in cuts;
      forall i | 0 <= i < |cuts| ensures 0 < cuts[i] < length { assert cuts[i] in cuts && cuts[i] in positions; }
    }
  }

  /** Where piece i begins, if it is not the one after the last cut. */
  function Begin(cuts: seq<int>, i: nat, length: nat): int {
    if i == 0 then 0 else if i <= |cuts| then cuts[i - 1] else length
  }

  /** Piece i is what lies between the cuts around it, with everything else but its history as the chunk had it. */
  ghost predicate IsPiece(c: Chunk, piece: Chunk, content: string, i: nat, id: nat, userId: nat) {
    && piece.content == content && piece.tokenCount == Words(content) && piece.position == c.position + i
    && piece.unitType == c.unitType && piece.unitId == c.unitId && piece.kbId == c.kbId && piece.folderId == c.folderId
    && piece.parentChunkId == c.parentChunkId && piece.level == c.level && piece.reviewExcluded == c.reviewExcluded
    && piece.isManuallyEdited && piece.vectorId.None? && piece.editHistory == [SplitFrom(userId, id)]
  }

  lemma SegmentIsSlice(s: string, cuts: seq<int>, i: nat)
    requires ValidCuts(cuts, |s|) && i <= |cuts|
    ensures 0 <= Begin(cuts, i, |s|) <= Begin(cuts, i + 1, |s|) <= |s|
    ensures Segments(s, cuts)[i] == s[Begin(cuts, i, |s|)..Begin(cuts, i + 1, |s|)]
  {
    var b := [0] + cuts + [|s|];
    assert b[i] == Begin(cuts, i, |s|) && b[i + 1] == Begin(cuts, i + 1, |s|);
  }

  /** The pieces stand in the place of the chunk, and no other row changes. */
  lemma SplitStores(db: Db, id: nat, cuts: seq<int>, userId: nat, i: nat)
    requires IdsBelow(db) && SplitStep(db, id, cuts, userId).1.Ok? && i <= |cuts|
    ensures var (db', r) := SplitStep(db, id, cuts, userId);
            var c := db.chunks[id];
            && |r.value| == |cuts| + 1 && Present(db', r.value) && IdsBelow(db')
            && (forall k :: k in db'.chunks <==> (k in db.chunks && k != id) || k in r.value)
            && (forall k :: k in db.chunks && k != id ==> db'.chunks[k] == db.chunks[k] && k !in r.value)
            && var (lo, hi) := (Begin(cuts, i, |c.content|), Begin(cuts, i + 1, |c.content|));
            0 <= lo <= hi <= |c.content| && IsPiece(c, db'.chunks[r.value[i]], c.content[lo..hi], i, id, userId)
  {
    SplitRows(db, id, cuts, userId);
    var (db', r) := SplitStep(db, id, cuts, userId);
    var c := db.chunks[id];
    SegmentIsSlice(c.content, cuts, i);
    assert Rows(db', r.value)[i] == SplitChunks(c, id, Segments(c.content, cuts), userId)[i];
  }

  // --- Merging ---

  /** All the chunks named belong to one unit. */
  ghost predicate SameUnit(db: Db, ids: seq<nat>)
    requires Present(db, ids)
  {
    forall i, j :: 0 <= i < |ids| && 0 <= j < |ids| ==>
      && db.chunks[ids[i]].unitType == db.chunks[ids[j]].unitType
      && db.chunks[ids[i]].unitId == db.chunks[ids[j]].unitId
  }

  lemma SameUnitMeaning(db: Db, ids: seq<nat>)
    requires Present(db, ids)
    ensures OneUnit(Rows(db, ids)) <==> SameUnit(db, ids)
  {
    var rows := Rows(db, ids);
    if OneUnit(rows) {
      forall i, j | 0 <= i < |ids| && 0 <= j < |ids|
        ensures db.chunks[ids[i]].unitType == db.chunks[ids[j]].unitType && db.chunks[ids[i]].unitId == db.chunks[ids[j]].unitId
      {
        assert rows[i] in rows && rows[j] in rows;
      }
    }
  }

  lemma {:induction false} MissingIsFirst(db: Db, ids: seq<nat>, k: nat)
    requires k < |ids| && ids[k] !in db.chunks && forall i :: 0 <= i < k ==> ids[i] in db.chunks
    ensures FirstMissing(db, ids) == Some(ids[k])
  {
    if k > 0 { MissingIsFirst(db, ids[1..], k - 1); }
  }

  /** A merge succeeds iff two chunks or more are named, all exist, and all are of one unit. */
  lemma MergeSucceedsIff(db: Db, ids: seq<nat>, userId: nat)
    ensures MergeStep(db, ids, userId).1.Ok? <==> |ids| >= 2 && Present(db, ids) && SameUnit(db, ids)
    ensures MergeStep(db, ids, userId).1.Err? ==> MergeStep(db, ids, userId).0 == db
    ensures MergeStep(db, ids, userId).1 == Err(TooFewChunks) <==> |ids| < 2
    ensures MergeStep(db, ids, userId).1 == Err(MixedUnits) <==> |ids| >= 2 && Present(db, ids) && !SameUnit(db, ids)
    ensures forall k: nat :: |ids| >= 2 && k < |ids| && ids[k] !in db.chunks && (forall i :: 0 <= i < k ==> ids[i] in db.chunks)
              ==> MergeStep(db, ids, userId).1 == Err(NotFound(ids[k]))
  {
    FirstMissingMeaning(db, ids);
    if Present(db, ids) { SameUnitMeaning(db, ids); }
    forall k: nat | k < |ids| && ids[k] !in db.chunks && (forall i :: 0 <= i < k ==> ids[i] in db.chunks)
      ensures FirstMissing(db, ids) == Some(ids[k])
    {
      MissingIsFirst(db, ids, k);
    }
  }

  /** Exactly the chunks named are gone, one row with a fresh id is new, and no other row changes. */
  lemma MergeReplaces(db: Db, ids: seq<nat>, userId: nat)
    requires IdsBelow(db) && MergeStep(db, ids, userId).1.Ok?
    ensures var (db', r) := MergeStep(db, ids, userId);
            && r.value !in db.chunks && IdsBelow(db')
            && (forall k :: k in db'.chunks <==> (k in db.chunks && k !in ids) || k == r.value)
            && (forall k :: k in db.chunks && k !in ids ==> db'.chunks[k] == db.chunks[k])
  {
    MergeStores(db, ids, userId);
  }

  ghost predicate SomeExcluded(db: Db, ids: seq<nat>)
    requires Present(db, ids)
  {
    exists i :: 0 <= i < |ids| && db.chunks[ids[i]].reviewExcluded
  }

  lemma ExcludedAmong(db: Db, ids: seq<nat>, sorted: seq<Chunk>)
    requires Present(db, ids) && sorted == SortBy(Rows(db, ids), PositionOf())
    ensures (exists c :: c in sorted && c.reviewExcluded) <==> SomeExcluded(db, ids)
  {
    var rows := Rows(db, ids);
    SortPermutes(rows, PositionOf());
    SameMembers(sorted, rows);
    if i :| 0 <= i < |ids| && db.chunks[ids[i]].reviewExcluded { assert rows[i] in sorted; }
    if c :| c in sorted && c.reviewExcluded {
      var i :| 0 <= i < |rows| && rows[i] == c;
      assert db.chunks[ids[i]].reviewExcluded;
    }
  }

  /** The merged row is excluded from review iff any of its sources was. */
  lemma MergeExcludes(db: Db, ids: seq<nat>, userId: nat)
    requires IdsBelow(db) && MergeStep(db, ids, userId).1.Ok?
    ensures Present(db, ids)
    ensures var (db', r) := MergeStep(db, ids, userId);
            && r.value in db'.chunks
            && (db'.chunks[r.value].reviewExcluded <==> exists i :: 0 <= i < |ids| && db.chunks[ids[i]].reviewExcluded)
  {
    MergeStores(db, ids, userId);
    ExcludedAmong(db, ids, SortBy(Rows(db, ids), PositionOf()));
    assert SomeExcluded(db, ids) <==> exists i :: 0 <= i < |ids| && db.chunks[ids[i]].reviewExcluded;
  }

  /** The texts of the chunks named, in the order that at names. */
  ghost predicate TextsInOrder(db: Db, ids: seq<nat>, at: seq<nat>, texts: seq<string>)
    requires Present(db, ids)
  {
    |texts| == |at| && forall j :: 0 <= j < |at| ==> at[j] < |ids| && texts[j] == db.chunks[ids[at[j]]].content
  }

  /** The chunks named are taken by position and, where positions are equal, in the order named. */
  ghost predicate ByPosition(db: Db, ids: seq<nat>, at: seq<nat>)
    requires Present(db, ids)
  {
    && |at| == |ids| && (forall j :: 0 <= j < |at| ==> at[j] < |ids|)
    && forall j, k :: 0 <= j < k < |at| ==>
         var (p, q) := (db.chunks[ids[at[j]]].position, db.chunks[ids[at[k]]].position);
         p < q || (p == q && at[j] < at[k])
  }

  lemma ArrangedByPosition(db: Db, ids: seq<nat>, rows: seq<Chunk>, at: seq<nat>, sorted: seq<Chunk>)
    requires Present(db, ids) && rows == Rows(db, ids)
    requires StableOrder(rows, PositionOf(), at) && Arranges(rows, at, sorted)
    ensures ByPosition(db, ids, at) && TextsInOrder(db, ids, at, Contents(sorted))
    ensures forall j :: 0 <= j < |at| ==> sorted[j] == db.chunks[ids[at[j]]]
  {
    forall j | 0 <= j < |at| ensures at[j] < |ids| && rows[at[j]] == db.chunks[ids[at[j]]] {}
  }

  lemma MergeOrder(db: Db, ids: seq<nat>, sorted: seq<Chunk>) returns (at: seq<nat>)
    requires Present(db, ids) && sorted == SortBy(Rows(db, ids), PositionOf())
    ensures ByPosition(db, ids, at) && TextsInOrder(db, ids, at, Contents(sorted))
    ensures forall j :: 0 <= j < |at| ==> sorted[j] == db.chunks[ids[at[j]]]
  {
    at := SortIsStable(Rows(db, ids), PositionOf());
    ArrangedByPosition(db, ids, Rows(db, ids), at, sorted);
  }

  /** Everything the merged row has from its sources and its own: texts joined by blank lines, the rest from the first source. */
  ghost predicate IsMerge(m: Chunk, first: Chunk, texts: seq<string>, ids: seq<nat>, userId: nat) {
    && m.content == Join(BLANK_LINE, texts) && m.tokenCount == TotalWords(texts)
    && m.position == first.position && m.level == first.level && m.parentChunkId == first.parentChunkId
    && m.unitType == first.unitType && m.unitId == first.unitId && m.kbId == first.kbId && m.folderId == first.folderId
    && m.isManuallyEdited && m.vectorId.None? && m.editHistory == [MergedFrom(userId, ids)]
  }

  /** For any chunks: their texts in the order of their positions, ties in the order named, make up the merged row. */
  lemma MergeJoins(db: Db, ids: seq<nat>, userId: nat) returns (at: seq<nat>, texts: seq<string>)
    requires IdsBelow(db) && MergeStep(db, ids, userId).1.Ok?
    ensures |ids| >= 2 && Present(db, ids) && ByPosition(db, ids, at) && TextsInOrder(db, ids, at, texts)
    ensures var (db', r) := MergeStep(db, ids, userId);
            r.value in db'.chunks && IsMerge(db'.chunks[r.value], db.chunks[ids[at[0]]], texts, ids, userId)
  {
    MergeStores(db, ids, userId);
    var sorted := SortBy(Rows(db, ids), PositionOf());
    at := MergeOrder(db, ids, sorted);
    texts := Contents(sorted);
    MergeKeepsWords(texts);
  }

  // --- Editing ---

  /** The caller of an edit gets the new text with a history that ends with the old one; an unknown chunk is refused. */
  lemma EditReturns(db: Db, id: nat, newContent: string, userId: nat)
    ensures var (db', r) := EditStep(db, id, newContent, userId);
            && (r.Ok? <==> id in db.chunks)
            && (r.Err? ==> db' == db && r.error == NotFound(id))
            && (r.Ok? ==>
                  && r.value.content == newContent && r.value.tokenCount == Words(newContent) && r.value.isManuallyEdited
                  && r.value.vectorId.None? && r.value.reviewExcluded == db.chunks[id].reviewExcluded
                  && r.value.editHistory == db.chunks[id].editHistory + [Edited(userId, db.chunks[id].content)])
  {
  }
}
