/** Splitting, merging and editing knowledge chunks over the chunk table (app/knowledge/chunk_service.py). */
module ChunkSpec {
  import opened Wrappers
  import opened Text
  import opened Sorting
  import opened ChunkText

  // --- Chunks ---

  datatype Edit =
    | Edited(userId: nat, previous: string)
    | SplitFrom(userId: nat, source: nat)
    | MergedFrom(userId: nat, sources: seq<nat>)

  datatype Chunk = Chunk(
    unitType: string, unitId: nat, kbId: nat, folderId: Option<nat>, content: string, parentChunkId: Option<nat>,
    level: int, position: int, tokenCount: nat, isManuallyEdited: bool, vectorId: Option<string>,
    reviewExcluded: bool, editHistory: seq<Edit>)

  datatype Db = Db(chunks: map<nat, Chunk>, nextId: nat)

  datatype ChunkError = NotFound(id: nat) | InvalidSplitPositions | TooFewChunks | MixedUnits

  function SplitChunks(c: Chunk, id: nat, parts: seq<string>, userId: nat): (r: seq<Chunk>)
    ensures |r| == |parts|
    ensures forall i :: 0 <= i < |parts| ==>
      r[i] == c.(content := parts[i], position := c.position + i, tokenCount := Words(parts[i]), isManuallyEdited := true,
                 vectorId := None, editHistory := [SplitFrom(userId, id)])
  {
    seq(|parts|, i requires 0 <= i < |parts| =>
      c.(content := parts[i], position := c.position + i, tokenCount := Words(parts[i]), isManuallyEdited := true,
         vectorId := None, editHistory := [SplitFrom(userId, id)]))
  }

  function NewIds(base: nat, n: nat): (ids: seq<nat>)
    ensures |ids| == n && forall i :: 0 <= i < n ==> ids[i] == base + i
  {
    seq(n, i => base + i)
  }

  /** The rows under consecutive fresh ids. */
  function AddAll(m: map<nat, Chunk>, base: nat, rows: seq<Chunk>): map<nat, Chunk> {
    if rows == [] then m else AddAll(m, base, rows[..|rows| - 1])[base + |rows| - 1 := rows[|rows| - 1]]
  }

  lemma {:induction false} AddAllMeaning(m: map<nat, Chunk>, base: nat, rows: seq<Chunk>)
    ensures forall i :: i in AddAll(m, base, rows) <==> i in m || base <= i < base + |rows|
    ensures forall i :: 0 <= i < |rows| ==> AddAll(m, base, rows)[base + i] == rows[i]
    ensures forall i :: i in m && !(base <= i < base + |rows|) ==> AddAll(m, base, rows)[i] == m[i]
  {
    if rows != [] { AddAllMeaning(m, base, rows[..|rows| - 1]); }
  }

  /** New rows instead of one. */
  function ReplaceRow(db: Db, id: nat, rows: seq<Chunk>): (Db, Result<seq<nat>, ChunkError>) {
    (Db(AddAll(db.chunks, db.nextId, rows) - {id}, db.nextId + |rows|), Ok(NewIds(db.nextId, |rows|)))
  }

  /** cuts is the sorted set of the requested positions. */
  ghost predicate SortedSetOf(cuts: seq<int>, positions: seq<int>) {
    && (forall i, j :: 0 <= i < j < |cuts| ==> cuts[i] < cuts[j])
    && (forall p :: p in cuts <==> p in positions)
  }

  ghost function SplitStep(db: Db, id: nat, cuts: seq<int>, userId: nat): (Db, Result<seq<nat>, ChunkError>) {
    if id !in db.chunks then (db, Err(NotFound(id)))
    else if !ValidCuts(cuts, |db.chunks[id].content|) then (db, Err(InvalidSplitPositions))
    else
      var c := db.chunks[id];
      ReplaceRow(db, id, SplitChunks(c, id, Segments(c.content, cuts), userId))
  }

  // --- Merging ---

  function PositionOf(): Chunk -> int {
    (c: Chunk) => c.position
  }

  function Contents(rows: seq<Chunk>): (r: seq<string>)
    ensures |r| == |rows| && forall i :: 0 <= i < |rows| ==> r[i] == rows[i].content
  {
    seq(|rows|, i requires 0 <= i < |rows| => rows[i].content)
  }

  function Merged(rows: seq<Chunk>, ids: seq<nat>, userId: nat): Chunk
    requires rows != []
  {
    var content := Join(BLANK_LINE, Contents(rows));
    rows[0].(content := content, tokenCount := Words(content), isManuallyEdited := true, vectorId := None,
             reviewExcluded := exists c :: c in rows && c.reviewExcluded, editHistory := [MergedFrom(userId, ids)])
  }

  predicate Present(db: Db, ids: seq<nat>) {
    forall i :: 0 <= i < |ids| ==> ids[i] in db.chunks
  }

  function Rows(db: Db, ids: seq<nat>): (r: seq<Chunk>)
    requires Present(db, ids)
    ensures |r| == |ids| && forall i :: 0 <= i < |ids| ==> r[i] == db.chunks[ids[i]]
  {
    seq(|ids|, i requires 0 <= i < |ids| => db.chunks[ids[i]])
  }

  function FirstMissing(db: Db, ids: seq<nat>): Option<nat> {
    if ids == [] then None else if ids[0] !in db.chunks then Some(ids[0]) else FirstMissing(db, ids[1..])
  }

  lemma {:induction false} FirstMissingMeaning(db: Db, ids: seq<nat>)
    ensures FirstMissing(db, ids).None? <==> Present(db, ids)
  {
    if ids != [] {
      FirstMissingMeaning(db, ids[1..]);
      assert forall i :: 0 < i < |ids| ==> ids[i] == ids[1..][i - 1];
    }
  }

  predicate OneUnit(rows: seq<Chunk>) {
    forall c, d :: c in rows && d in rows ==> c.unitType == d.unitType && c.unitId == d.unitId
  }

  ghost function MergeStep(db: Db, ids: seq<nat>, userId: nat): (Db, Result<nat, ChunkError>) {
    FirstMissingMeaning(db, ids);
    if |ids| < 2 then (db, Err(TooFewChunks))
    else if FirstMissing(db, ids).Some? then (db, Err(NotFound(FirstMissing(db, ids).value)))
    else if !OneUnit(Rows(db, ids)) then (db, Err(MixedUnits))
    else
      var sorted := SortBy(Rows(db, ids), PositionOf());
      (Db(db.chunks[db.nextId := Merged(sorted, ids, userId)] - (set i | i in ids), db.nextId + 1), Ok(db.nextId))
  }

  /** The edited object in memory: its history has the replaced text at the end. */
  function EditedRow(c: Chunk, newContent: string, userId: nat): Chunk {
    c.(content := newContent, isManuallyEdited := true, editHistory := c.editHistory + [Edited(userId, c.content)],
       vectorId := None, tokenCount := Words(newContent))
  }

  /**
   What the flush stores. A non-empty history was appended to in place and assigned to itself, so the column compares
   equal to what was loaded and is not written; only an empty history was replaced by a new list.
   */
  function StoredRow(c: Chunk, edited: Chunk): Chunk {
    if c.editHistory == [] then edited else edited.(editHistory := c.editHistory)
  }

  /** The caller gets the object in memory, the table the row that is stored. */
  function EditStep(db: Db, id: nat, newContent: string, userId: nat): (Db, Result<Chunk, ChunkError>) {
    if id !in db.chunks then (db, Err(NotFound(id)))
    else
      var edited := EditedRow(db.chunks[id], newContent, userId);
      (db.(chunks := db.chunks[id := StoredRow(db.chunks[id], edited)]), Ok(edited))
  }

  /** The totals of a list of rows. */
  function TotalTokens(rows: seq<Chunk>): nat {
    if rows == [] then 0 else TotalTokens(rows[..|rows| - 1]) + rows[|rows| - 1].tokenCount
  }

  lemma {:induction false} TokensAreWords(c: Chunk, id: nat, parts: seq<string>, userId: nat)
    ensures TotalTokens(SplitChunks(c, id, parts, userId)) == TotalWords(parts)
  {
    if parts != [] {
      var n := |parts| - 1;
      TokensAreWords(c, id, parts[..n], userId);
      assert SplitChunks(c, id, parts, userId)[..n] == SplitChunks(c, id, parts[..n], userId);
    }
  }

  ghost predicate IdsBelow(db: Db) {
    forall i :: i in db.chunks ==> i < db.nextId
  }

  lemma NewIdsAre(base: nat, n: nat)
    ensures forall i :: i in NewIds(base, n) <==> base <= i < base + n
  {
    forall i | base <= i < base + n ensures i in NewIds(base, n) {
      assert NewIds(base, n)[i - base] == i;
    }
  }

  lemma ReplacedRows(db: Db, id: nat, rows: seq<Chunk>)
    requires IdsBelow(db) && id in db.chunks
    ensures var (db', r) := ReplaceRow(db, id, rows);
            && id !in db'.chunks && IdsBelow(db')
            && Present(db', r.value) && Rows(db', r.value) == rows
            && (forall i :: i in db'.chunks <==> (i in db.chunks && i != id) || i in r.value)
            && (forall i :: i in db.chunks && i != id ==> db'.chunks[i] == db.chunks[i] && i !in r.value)
  {
    AddAllMeaning(db.chunks, db.nextId, rows);
    NewIdsAre(db.nextId, |rows|);
    var (db', r) := ReplaceRow(db, id, rows);
    assert Present(db', r.value);
    assert Rows(db', r.value) == rows;
  }

  /** The pieces of a split under their new ids. */
  lemma SplitRows(db: Db, id: nat, cuts: seq<int>, userId: nat)
    requires IdsBelow(db) && SplitStep(db, id, cuts, userId).1.Ok?
    ensures var (db', r) := SplitStep(db, id, cuts, userId);
            var c := db.chunks[id];
            && |r.value| == |cuts| + 1 && id !in db'.chunks && IdsBelow(db')
            && (forall i :: 0 <= i < |r.value| ==> r.value[i] == db.nextId + i)
            && Present(db', r.value) && Rows(db', r.value) == SplitChunks(c, id, Segments(c.content, cuts), userId)
            && (forall i :: i in db'.chunks <==> (i in db.chunks && i != id) || i in r.value)
            && (forall i :: i in db.chunks && i != id ==> db'.chunks[i] == db.chunks[i] && i !in r.value)
  {
    var c := db.chunks[id];
    ReplacedRows(db, id, SplitChunks(c, id, Segments(c.content, cuts), userId));
  }

  /** Splitting conserves the text and, up to one word per cut, the words; the pieces keep the review flag. */
  lemma SplitConserves(db: Db, id: nat, cuts: seq<int>, userId: nat)
    requires IdsBelow(db) && SplitStep(db, id, cuts, userId).1.Ok?
    ensures var (db', r) := SplitStep(db, id, cuts, userId);
            var c := db.chunks[id];
            && |r.value| == |cuts| + 1 && Present(db', r.value) && id !in db'.chunks
            && Concat(Contents(Rows(db', r.value))) == c.content
            && (forall i :: 0 <= i < |r.value| ==>
                  var piece := db'.chunks[r.value[i]];
                  piece.content != "" && piece.reviewExcluded == c.reviewExcluded && piece.position == c.position + i)
            && Words(c.content) <= TotalTokens(Rows(db', r.value)) <= Words(c.content) + |cuts|
  {
    var (db', r) := SplitStep(db, id, cuts, userId);
    var c := db.chunks[id];
    var parts := Segments(c.content, cuts);
    SplitRows(db, id, cuts, userId);
    assert 0 < cuts[0] < |c.content|;
    SegmentsMakeUpTheText(c.content, cuts);
    WordsOfSegments(c.content, cuts);
    TokensAreWords(c, id, parts, userId);
    var rows := Rows(db', r.value);
    assert Contents(rows) == parts;
    assert forall i :: 0 <= i < |rows| ==> rows[i] == db'.chunks[r.value[i]];
  }

  /** Merging the pieces of a split, named in any order, gives back the text with a blank line at exactly the cuts. */
  lemma MergeAfterSplit(db: Db, id: nat, cuts: seq<int>, userId: nat, ids: seq<nat>)
    requires IdsBelow(db) && SplitStep(db, id, cuts, userId).1.Ok?
    requires multiset(ids) == multiset(SplitStep(db, id, cuts, userId).1.value)
    ensures var (db1, r1) := SplitStep(db, id, cuts, userId);
            var (db2, r2) := MergeStep(db1, ids, userId);
            var c := db.chunks[id];
            && r2.Ok? && r2.value in db2.chunks && Present(db1, r1.value)
            && var m := db2.chunks[r2.value];
            && m.content == InsertAt(c.content, cuts, BLANK_LINE)
            && m.tokenCount == TotalTokens(Rows(db1, r1.value))
            && m.position == c.position && m.reviewExcluded == c.reviewExcluded
            && (m.unitType, m.unitId, m.kbId, m.folderId, m.level) == (c.unitType, c.unitId, c.kbId, c.folderId, c.level)
            && db2.chunks == (db.chunks - {id})[r2.value := m]
  {
    var (db1, r1) := SplitStep(db, id, cuts, userId);
    var c := db.chunks[id];
    var rows := SplitChunks(c, id, Segments(c.content, cuts), userId);
    SplitRows(db, id, cuts, userId);
    PiecesSort(db1, ids, r1.value, rows);
    PiecesMerge(c, id, cuts, userId, ids);
    MergeOfPieces(db, db1, id, c, rows, ids, r1.value, userId);
  }

  lemma PiecesMerge(c: Chunk, id: nat, cuts: seq<int>, userId: nat, ids: seq<nat>)
    requires ValidCuts(cuts, |c.content|)
    ensures var rows := SplitChunks(c, id, Segments(c.content, cuts), userId);
            var m := Merged(rows, ids, userId);
            && PiecesOf(rows, c)
            && m.content == InsertAt(c.content, cuts, BLANK_LINE) && m.tokenCount == TotalTokens(rows)
            && m.position == c.position
            && (m.unitType, m.unitId, m.kbId, m.folderId, m.level) == (c.unitType, c.unitId, c.kbId, c.folderId, c.level)
  {
    var parts := Segments(c.content, cuts);
    assert 0 < cuts[0] < |c.content|;
    JoinedSegments(c.content, cuts);
    TokensAreWords(c, id, parts, userId);
    MergeKeepsWords(parts);
    assert Contents(SplitChunks(c, id, parts, userId)) == parts;
  }

  lemma PiecesSort(db: Db, ids: seq<nat>, inOrder: seq<nat>, rows: seq<Chunk>)
    requires multiset(ids) == multiset(inOrder)
    requires Present(db, inOrder) && Rows(db, inOrder) == rows && StrictlyOrdered(rows, PositionOf())
    ensures |ids| == |inOrder| && Present(db, ids) && (forall i :: i in ids <==> i in inOrder)
    ensures SortBy(Rows(db, ids), PositionOf()) == rows
  {
    SameMembers(ids, inOrder);
    forall i | 0 <= i < |ids| ensures ids[i] in db.chunks {
      assert ids[i] in inOrder;
      var j :| 0 <= j < |inOrder| && inOrder[j] == ids[i];
    }
    LookupPermutes(db.chunks, ids, inOrder, Rows(db, ids), rows);
    SortPermutes(Rows(db, ids), PositionOf());
    OneArrangement(SortBy(Rows(db, ids), PositionOf()), rows, PositionOf());
  }

  ghost predicate PiecesOf(rows: seq<Chunk>, c: Chunk) {
    && |rows| >= 2 && rows[0].position == c.position
    && forall i :: 0 <= i < |rows| ==>
         rows[i].unitType == c.unitType && rows[i].unitId == c.unitId && rows[i].reviewExcluded == c.reviewExcluded
  }

  lemma OneUnitAnyOrder(all: seq<Chunk>, c: Chunk)
    requires forall i :: 0 <= i < |all| ==> all[i].unitType == c.unitType && all[i].unitId == c.unitId
    ensures OneUnit(all)
  {
  }

  lemma {:induction false} MergeOfPieces(db: Db, db1: Db, id: nat, c: Chunk, rows: seq<Chunk>, ids: seq<nat>, inOrder: seq<nat>, userId: nat)
    requires PiecesOf(rows, c) && |ids| == |rows|
    requires forall i :: i in db1.chunks <==> (i in db.chunks && i != id) || i in inOrder
    requires forall i :: i in db.chunks && i != id ==> db1.chunks[i] == db.chunks[i] && i !in inOrder
    requires forall i :: i in db1.chunks ==> i < db1.nextId
    requires Present(db1, inOrder) && Rows(db1, inOrder) == rows && (forall i :: i in ids <==> i in inOrder)
    requires Present(db1, ids) && SortBy(Rows(db1, ids), PositionOf()) == rows
    ensures MergeStep(db1, ids, userId).1 == Ok(db1.nextId)
    ensures MergeStep(db1, ids, userId).0.chunks == (db.chunks - {id})[db1.nextId := Merged(rows, ids, userId)]
    ensures Merged(rows, ids, userId).reviewExcluded == c.reviewExcluded
  {
    FirstMissingMeaning(db1, ids);
    PiecesAreOneUnit(db1, c, rows, ids, inOrder);
    assert rows[0] in rows;
    RowsReplaced(db.chunks, db1.chunks, id, ids, inOrder, db1.nextId, Merged(rows, ids, userId));
  }

  lemma PiecesAreOneUnit(db1: Db, c: Chunk, rows: seq<Chunk>, ids: seq<nat>, inOrder: seq<nat>)
    requires PiecesOf(rows, c) && Present(db1, ids) && Present(db1, inOrder) && Rows(db1, inOrder) == rows
    requires forall i :: i in ids <==> i in inOrder
    ensures OneUnit(Rows(db1, ids))
  {
    var all := Rows(db1, ids);
    forall i | 0 <= i < |all| ensures all[i].unitType == c.unitType && all[i].unitId == c.unitId {
      assert ids[i] in inOrder;
      var j :| 0 <= j < |inOrder| && inOrder[j] == ids[i];
      assert all[i] == rows[j];
    }
    OneUnitAnyOrder(all, c);
  }

  lemma RowsReplaced<T>(was: map<nat, T>, between: map<nat, T>, id: nat, ids: seq<nat>, inOrder: seq<nat>, key: nat, x: T)
    requires forall i :: i in between <==> (i in was && i != id) || i in inOrder
    requires forall i :: i in was && i != id ==> between[i] == was[i] && i !in inOrder
    requires forall i :: i in between ==> i < key
    requires forall i :: i in ids <==> i in inOrder
    ensures between[key := x] - (set i | i in ids) == (was - {id})[key := x]
  {
    assert key !in between && key !in inOrder;
  }

  // --- Edit history ---

  /** Edits in sessions of their own, as requests make them. */
  function EditAll(db: Db, id: nat, texts: seq<string>, userId: nat): Db {
    if texts == [] then db else EditStep(EditAll(db, id, texts[..|texts| - 1], userId), id, texts[|texts| - 1], userId).0
  }

  /** The history that has every text the chunk had, up to the last. */
  function FullHistory(was: Chunk, texts: seq<string>, userId: nat): (r: seq<Edit>)
    ensures |r| == |was.editHistory| + |texts|
  {
    var had := [was.content] + texts;
    was.editHistory + seq(|texts|, i requires 0 <= i < |texts| => Edited(userId, had[i]))
  }

  /** What a run of edits stores: the last text, and of the replaced ones only the first, if there was no history before. */
  lemma {:induction false} EditsStore(db: Db, id: nat, texts: seq<string>, userId: nat)
    requires id in db.chunks
    ensures var db' := EditAll(db, id, texts, userId);
            && db'.chunks.Keys == db.chunks.Keys && (forall i :: i in db.chunks && i != id ==> db'.chunks[i] == db.chunks[i])
            && var was, now := db.chunks[id], db'.chunks[id];
            && now.content == ([was.content] + texts)[|texts|] && now.reviewExcluded == was.reviewExcluded
            && (texts != [] ==> now.tokenCount == Words(now.content) && now.vectorId.None?)
            && now.editHistory == (if texts == [] || was.editHistory != [] then was.editHistory else [Edited(userId, was.content)])
  {
    if texts != [] { EditsStore(db, id, texts[..|texts| - 1], userId); }
  }

  /** The stored history is complete exactly if nothing was edited, or one edit was made to a chunk without a history. */
  lemma HistoryIsCompleteIff(db: Db, id: nat, texts: seq<string>, userId: nat)
    requires id in db.chunks
    ensures id in EditAll(db, id, texts, userId).chunks
    ensures EditAll(db, id, texts, userId).chunks[id].editHistory == FullHistory(db.chunks[id], texts, userId)
            <==> texts == [] || (|texts| == 1 && db.chunks[id].editHistory == [])
  {
    EditsStore(db, id, texts, userId);
    var was := db.chunks[id];
    if |texts| == 1 && was.editHistory == [] {
      assert FullHistory(was, texts, userId) == [Edited(userId, was.content)];
    }
    if texts == [] { assert FullHistory(was, texts, userId) == was.editHistory; }
  }

  /** Two edits of a new chunk: the text in between is nowhere in the table. */
  lemma SecondEditForgets(db: Db, id: nat, first: string, second: string, userId: nat)
    requires id in db.chunks && db.chunks[id].editHistory == [] && first != db.chunks[id].content && first != second
    ensures id in EditAll(db, id, [first, second], userId).chunks
    ensures var now := EditAll(db, id, [first, second], userId).chunks[id];
            now.content == second && forall user :: Edited(user, first) !in now.editHistory
  {
    EditsStore(db, id, [first, second], userId);
  }

  /** The pieces of a split, and merges, start with a history, so no edit of them is ever recorded. */
  lemma PiecesNeverRecordEdits(db: Db, id: nat, texts: seq<string>, userId: nat)
    requires id in db.chunks && db.chunks[id].editHistory != []
    ensures id in EditAll(db, id, texts, userId).chunks
    ensures EditAll(db, id, texts, userId).chunks[id].editHistory == db.chunks[id].editHistory
  {
    EditsStore(db, id, texts, userId);
  }

  // --- Merging what is in order already ---

  /** A merge stores one row, the merged one, under a fresh id. */
  lemma MergeStores(db: Db, ids: seq<nat>, userId: nat)
    requires IdsBelow(db) && MergeStep(db, ids, userId).1.Ok?
    ensures Present(db, ids) && |ids| >= 2
    ensures var (db', r) := MergeStep(db, ids, userId);
            r.value in db'.chunks && db'.chunks[r.value] == Merged(SortBy(Rows(db, ids), PositionOf()), ids, userId)
  {
    FirstMissingMeaning(db, ids);
    assert forall i :: 0 <= i < |ids| ==> ids[i] < db.nextId;
  }

  /** Sorting is stable: chunks named in the order of their positions are joined in the order they are named, ties included. */
  lemma MergeKeepsOrder(db: Db, ids: seq<nat>, userId: nat)
    requires IdsBelow(db) && MergeStep(db, ids, userId).1.Ok?
    requires Present(db, ids) && Ordered(Rows(db, ids), PositionOf())
    ensures var (db', r) := MergeStep(db, ids, userId);
            r.value in db'.chunks && db'.chunks[r.value].content == Join(BLANK_LINE, Contents(Rows(db, ids)))
  {
    MergeStores(db, ids, userId);
    SortedStays(Rows(db, ids), PositionOf());
  }
}
