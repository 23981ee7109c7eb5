/** The chunk service over its mutable table: every call takes the step that ChunkSpec prescribes. */
module Chunks {
  import opened Wrappers
  import opened Text
  import opened Sorting
  import opened ChunkText
  import opened ChunkSpec

  // --- sorted(set(positions)) ---

  function InsertOnce(cuts: seq<int>, p: int): (r: seq<int>)
    requires forall i, j :: 0 <= i < j < |cuts| ==> cuts[i] < cuts[j]
    ensures forall i, j :: 0 <= i < j < |r| ==> r[i] < r[j]
    ensures forall q :: q in r <==> q in cuts || q == p
  {
    if cuts == [] || cuts[|cuts| - 1] < p then cuts + [p]
    else if cuts[|cuts| - 1] == p then cuts
    else
      var n := |cuts| - 1;
      assert cuts == cuts[..n] + [cuts[n]];
      var front := InsertOnce(cuts[..n], p);
      assert forall i :: 0 <= i < |front| ==> front[i] in front;
      front + [cuts[n]]
  }

  function SortedSet(positions: seq<int>): (cuts: seq<int>)
    ensures SortedSetOf(cuts, positions)
  {
    if positions == [] then []
    else
      var n := |positions| - 1;
      assert positions == positions[..n] + [positions[n]];
      InsertOnce(SortedSet(positions[..n]), positions[n])
  }

  // --- The preview against the split ---

  datatype Preview = Preview(content: string, tokenCount: nat)

  function Previews(parts: seq<string>): (r: seq<Preview>)
    ensures |r| == |parts|
    ensures forall i :: 0 <= i < |parts| ==> r[i] == Preview(parts[i], Words(parts[i]))
  {
    seq(|parts|, i requires 0 <= i < |parts| => Preview(parts[i], Words(parts[i])))
  }

  ghost function PreviewOf(db: Db, id: nat, cuts: seq<int>): Result<seq<Preview>, ChunkError> {
    if id !in db.chunks then Err(NotFound(id))
    else if !ValidCuts(cuts, |db.chunks[id].content|) then Err(InvalidSplitPositions)
    else Ok(Previews(Segments(db.chunks[id].content, cuts)))
  }

  /** A preview fails as the split would, and otherwise shows, in order, the texts and counts the split goes on to store. */
  lemma PreviewIsTheSplit(db: Db, id: nat, cuts: seq<int>, userId: nat)
    requires IdsBelow(db)
    ensures var (db', made) := SplitStep(db, id, cuts, userId);
            match PreviewOf(db, id, cuts)
            case Err(e) => made == Err(e) && db' == db
            case Ok(shown) =>
              && made.Ok? && |made.value| == |shown| && Present(db', made.value)
              && forall i :: 0 <= i < |shown| ==>
                   var row := db'.chunks[made.value[i]];
                   shown[i] == Preview(row.content, row.tokenCount)
  {
    var (db', made) := SplitStep(db, id, cuts, userId);
    if made.Ok? {
      SplitRows(db, id, cuts, userId);
      var rows := Rows(db', made.value);
      assert forall i :: 0 <= i < |rows| ==> rows[i] == db'.chunks[made.value[i]];
    }
  }

  lemma UnitKeysCount(rows: seq<Chunk>, unitKeys: set<(string, nat)>)
    requires unitKeys == set c | c in rows :: (c.unitType, c.unitId)
    ensures |unitKeys| > 1 <==> !OneUnit(rows)
  {
    if unitKeys != {} {
      var k :| k in unitKeys;
      assert unitKeys == {k} + (unitKeys - {k});
      assert |unitKeys| == 1 + |unitKeys - {k}|;
      if |unitKeys| > 1 {
        assert unitKeys - {k} != {};
        var l :| l in unitKeys - {k};
        assert l in unitKeys && l != k;
      } else {
        assert unitKeys - {k} == {};
        forall c | c in rows ensures (c.unitType, c.unitId) == k {
          assert (c.unitType, c.unitId) in unitKeys;
        }
      }
    } else {
      assert forall c :: c in rows ==> (c.unitType, c.unitId) in unitKeys;
    }
  }

  /** A list object, which may be both the loaded value of a column and the value assigned to it. */
  class HistoryList {
    var items: seq<Edit>

    constructor (items: seq<Edit>)
      ensures this.items == items
    {
      this.items := items;
    }

    method Append(e: Edit)
      modifies this
      ensures items == old(items) + [e]
    {
      items := items + [e];
    }
  }

  class ChunkService {
    var chunks: map<nat, Chunk>
    var nextId: nat

    function State(): Db
      reads this
    {
      Db(chunks, nextId)
    }

    constructor (db: Db)
      ensures State() == db
    {
      chunks, nextId := db.chunks, db.nextId;
    }

    /** The sorted distinct positions, if there are any and all lie strictly inside the text. */
    static method CheckedPositions(content: string, splitPositions: seq<int>) returns (r: Result<seq<int>, ChunkError>)
      ensures var cuts := SortedSet(splitPositions);
              r == if ValidCuts(cuts, |content|) then Ok(cuts) else Err(InvalidSplitPositions)
    {
      var positions := SortedSet(splitPositions);
      if positions == [] || exists p :: p in positions && (p <= 0 || p >= |content|) {
        return Err(InvalidSplitPositions);
      }
      assert forall i :: 0 <= i < |positions| ==> positions[i] in positions;
      return Ok(positions);
    }

    method PreviewSplit(id: nat, splitPositions: seq<int>) returns (r: Result<seq<Preview>, ChunkError>)
      ensures r == PreviewOf(State(), id, SortedSet(splitPositions))
    {
      if id !in chunks {
        return Err(NotFound(id));
      }
      var content := chunks[id].content;
      var positions := CheckedPositions(content, splitPositions);
      if positions.Err? {
        return Err(positions.error);
      }
      return Ok(Previews(Segments(content, positions.value)));
    }

    method SplitChunk(id: nat, splitPositions: seq<int>, userId: nat) returns (r: Result<seq<nat>, ChunkError>)
      modifies this
      ensures (State(), r) == SplitStep(old(State()), id, SortedSet(splitPositions), userId)
    {
      if id !in chunks {
        return Err(NotFound(id));
      }
      var chunk := chunks[id];
      var content := chunk.content;
      var positions := CheckedPositions(content, splitPositions);
      if positions.Err? {
        return Err(positions.error);
      }
      var segments := Segments(content, positions.value);
      var newChunks := Pieces(chunk, id, segments, userId);
      r := Replace(id, newChunks);
    }

    method Replace(id: nat, rows: seq<Chunk>) returns (r: Result<seq<nat>, ChunkError>)
      modifies this
      ensures (State(), r) == ReplaceRow(old(State()), id, rows)
    {
      var made := Add(rows);
      chunks := chunks - {id};
      return Ok(made);
    }

    method Pieces(chunk: Chunk, id: nat, segments: seq<string>, userId: nat) returns (newChunks: seq<Chunk>)
      ensures newChunks == SplitChunks(chunk, id, segments, userId)
    {
      newChunks := [];
      for i := 0 to |segments|
        invariant |newChunks| == i
        invariant forall k :: 0 <= k < i ==> newChunks[k] == SplitChunks(chunk, id, segments, userId)[k]
      {
        var seg := segments[i];
        newChunks := newChunks + [
          Chunk(chunk.unitType, chunk.unitId, chunk.kbId, chunk.folderId, seg, chunk.parentChunkId, chunk.level,
                chunk.position + i, Words(seg), true, None, chunk.reviewExcluded, [SplitFrom(userId, id)])];
      }
    }

    /** Inserts rows under fresh ids. */
    method Add(rows: seq<Chunk>) returns (ids: seq<nat>)
      modifies this
      ensures chunks == AddAll(old(chunks), old(nextId), rows) && nextId == old(nextId) + |rows|
      ensures ids == NewIds(old(nextId), |rows|)
    {
      ids := [];
      for i := 0 to |rows|
        invariant chunks == AddAll(old(chunks), old(nextId), rows[..i]) && nextId == old(nextId) + i
        invariant |ids| == i && forall k :: 0 <= k < i ==> ids[k] == old(nextId) + k
      {
        assert rows[..i + 1][..i] == rows[..i];
        chunks := chunks[nextId := rows[i]];
        ids := ids + [nextId];
        nextId := nextId + 1;
      }
      assert rows[..|rows|] == rows;
    }

    /** The rows in the order asked for, or the first id that has none. */
    method GetChunks(ids: seq<nat>) returns (r: Result<seq<Chunk>, ChunkError>)
      ensures r.Err? <==> !Present(State(), ids)
      ensures r.Err? ==> FirstMissing(State(), ids).Some? && r.error == NotFound(FirstMissing(State(), ids).value)
      ensures r.Ok? ==> r.value == Rows(State(), ids)
    {
      FirstMissingMeaning(State(), ids);
      var rows: seq<Chunk> := [];
      for i := 0 to |ids|
        invariant Present(State(), ids[..i]) && rows == Rows(State(), ids[..i])
        invariant FirstMissing(State(), ids) == FirstMissing(State(), ids[i..])
      {
        if ids[i] !in chunks {
          return Err(NotFound(ids[i]));
        }
        rows := rows + [chunks[ids[i]]];
      }
      assert ids[..|ids|] == ids;
      return Ok(rows);
    }

    method DeleteChunks(ids: seq<nat>)
      modifies this`chunks
      ensures chunks == old(chunks) - (set i | i in ids)
    {
      for i := 0 to |ids|
        invariant forall k :: k in chunks <==> k in old(chunks) && k !in ids[..i]
        invariant forall k :: k in chunks ==> chunks[k] == old(chunks)[k]
      {
        assert ids[..i + 1] == ids[..i] + [ids[i]];
        chunks := chunks - {ids[i]};
      }
      assert ids[..|ids|] == ids;
    }

    method MergeChunks(ids: seq<nat>, userId: nat) returns (r: Result<nat, ChunkError>)
      modifies this
      ensures (State(), r) == MergeStep(old(State()), ids, userId)
    {
      if |ids| < 2 {
        return Err(TooFewChunks);
      }
      var loaded := GetChunks(ids);
      if loaded.Err? {
        return Err(loaded.error);
      }
      var rows := loaded.value;
      FirstMissingMeaning(State(), ids);
      var unitKeys := set c | c in rows :: (c.unitType, c.unitId);
      UnitKeysCount(rows, unitKeys);
      if |unitKeys| > 1 {
        return Err(MixedUnits);
      }
      var sorted := SortBy(rows, PositionOf());
      var content := Join(BLANK_LINE, Contents(sorted));
      var first := sorted[0];
      var merged := Chunk(first.unitType, first.unitId, first.kbId, first.folderId, content, first.parentChunkId,
                          first.level, first.position, Words(content), true, None,
                          exists c :: c in sorted && c.reviewExcluded, [MergedFrom(userId, ids)]);
      var id := nextId;
      chunks := chunks[id := merged];
      nextId := nextId + 1;
      DeleteChunks(ids);
      return Ok(id);
    }

    /** Loads the row with its history list, edits the object, and flushes the columns that compare unequal to what was loaded. */
    method EditChunk(id: nat, newContent: string, userId: nat) returns (r: Result<Chunk, ChunkError>)
      modifies this`chunks
      ensures (State(), r) == EditStep(old(State()), id, newContent, userId)
    {
      if id !in chunks {
        return Err(NotFound(id));
      }
      var chunk := chunks[id];
      var loaded := new HistoryList(chunk.editHistory);
      var history := loaded;
      if loaded.items == [] {
        history := new HistoryList([]);
      }
      history.Append(Edited(userId, chunk.content));
      chunk := chunk.(content := newContent, isManuallyEdited := true);
      chunk := chunk.(vectorId := None, tokenCount := Words(newContent));
      var stored := chunks[id].editHistory;
      if history.items != loaded.items {
        stored := history.items;
      }
      chunks := chunks[id := chunk.(editHistory := stored)];
      return Ok(chunk.(editHistory := history.items));
    }
  }
}
