/** The export and import services (app/knowledge/export_service.py), loop by loop. */
module Export {
  import opened Wrappers
  import opened Sequences
  import opened Text
  import opened ExportSpec
  import opened ExportLemmas
  import opened ExportRoundTrip
  import opened ExportExact

  method ExportKb(kb: Kb, storage: map<FileKey, string>, k: Codec, manifest: string) returns (archive: seq<Entry>)
    ensures archive == ArchiveOf(kb, storage, k, manifest)
  {
    archive := [Entry("manifest.json", manifest)];
    archive := archive + [Entry(CONFIG_NAME, k.dumpConfig(kb.config))];
    archive := archive + [Entry(FOLDERS_NAME, k.dumpFolders(FolderRecs(k, kb.folders)))];
    archive := ExportDocs(archive, Exported(kb.docs), storage, k);
    var lines := ExportChunks(kb.chunks, k);
    archive := archive + [Entry(CHUNKS_NAME, Join("\n", lines))];
  }

  method ExportDocs(before: seq<Entry>, docs: seq<Document>, storage: map<FileKey, string>, k: Codec) returns (archive: seq<Entry>)
    ensures archive == before + DocEntries(docs, storage, k)
  {
    archive := before;
    for i := 0 to |docs|
      invariant archive == before + DocEntries(docs[..i], storage, k)
    {
      var d := docs[i];
      EntriesStep(docs, i, storage, k);
      archive := archive + [Entry(DocPath(k.idText(d.id), META_NAME), k.dumpDoc(ToDocRec(k, d)))];
      var file := Stored(d, storage);
      if file.Some? {
        archive := archive + [Entry(DocPath(k.idText(d.id), d.title), file.value)];
      }
    }
    assert docs[..|docs|] == docs;
  }

  method ExportChunks(chunks: seq<Chunk>, k: Codec) returns (lines: seq<string>)
    ensures lines == Lines(chunks, k)
  {
    lines := [];
    for i := 0 to |chunks|
      invariant lines == Lines(chunks, k)[..i]
    {
      lines := lines + [k.dumpChunk(ToChunkRec(k, chunks[i]))];
    }
  }

  lemma EntriesStep(docs: seq<Document>, i: nat, storage: map<FileKey, string>, k: Codec)
    requires i < |docs|
    ensures DocEntries(docs[..i + 1], storage, k) == DocEntries(docs[..i], storage, k) + DocPair(docs[i], storage, k)
  {
    assert docs[..i + 1][..i] == docs[..i];
  }

  /** The directories are a set in the code, so the order in which they are visited is arbitrary; order records it. */
  method ImportKb(archive: seq<Entry>, k: Codec, base: nat, reChunk: bool) returns (r: Result<Imported, ImportError>, order: seq<string>)
    ensures r == Import(archive, k, base, reChunk, order)
    ensures Distinct(order) && Elements(order) <= DocDirs(archive)
    ensures r.Ok? ==> Elements(order) == DocDirs(archive)
  {
    order := [];
    if !HasEntry(archive, CONFIG_NAME) {
      r := Err(MissingEntry(CONFIG_NAME));
      return;
    }
    var config := k.loadConfig(Read(archive, CONFIG_NAME));
    var recs := if HasEntry(archive, FOLDERS_NAME) then k.loadFolders(Read(archive, FOLDERS_NAME)) else Some([]);
    if config.None? || recs.None? {
      r := Err(BadJson);
      return;
    }
    var folders, fmap := ImportFolders(recs.value, base + 1);
    var ds;
    ds, order := ImportDocuments(archive, k, base, fmap, base + 1 + |recs.value|);
    if ds.Err? {
      r := Err(ds.error);
      return;
    }
    var cs := ImportChunks(k, fmap, ds.value.idMap, ds.value.nextId, ChunkLines(archive, reChunk));
    if cs.Err? {
      r := Err(cs.error);
      return;
    }
    r := Ok(Imported(Kb(base, config.value, folders, ds.value.docs, cs.value.chunks), ds.value.files, |ds.value.idMap|, cs.value.nextId,
                      fmap, ds.value.idMap));
  }

  /** Two passes: first every folder gets its id, then parents are linked. */
  method ImportFolders(recs: seq<FolderRec>, base: nat) returns (folders: seq<Folder>, fmap: map<string, nat>)
    ensures fmap == FolderMap(recs, base) && folders == Relink(NewFolders(recs, base), recs, fmap)
  {
    folders, fmap := [], map[];
    for i := 0 to |recs|
      invariant folders == NewFolders(recs, base)[..i] && fmap == FolderMap(recs[..i], base)
    {
      assert recs[..i + 1][..i] == recs[..i];
      folders := folders + [Folder(base + i, recs[i].name, None, recs[i].position)];
      fmap := fmap[recs[i].id := base + i];
    }
    assert recs[..|recs|] == recs;
    for i := 0 to |recs|
      invariant folders == Relink(NewFolders(recs, base), recs[..i], fmap)
    {
      RelinkLast(NewFolders(recs, base), recs, fmap, i);
      var rec := recs[i];
      if rec.parentFolderId.Some? && rec.parentFolderId.value in fmap && rec.id in fmap {
        folders := SetParent(folders, fmap[rec.id], fmap[rec.parentFolderId.value]);
      }
    }
  }

  method ImportDocuments(archive: seq<Entry>, k: Codec, kbId: nat, fmap: map<string, nat>, base: nat)
    returns (r: Result<DocState, ImportError>, order: seq<string>)
    ensures r == ImportDocs(archive, k, kbId, fmap, NoDocs(base), order)
    ensures Distinct(order) && Elements(order) <= DocDirs(archive)
    ensures r.Ok? ==> Elements(order) == DocDirs(archive)
  {
    var dirs := DocDirs(archive);
    var st := NoDocs(base);
    order := [];
    while dirs != {}
      invariant Distinct(order) && Elements(order) !! dirs && Elements(order) + dirs == DocDirs(archive)
      invariant ImportDocs(archive, k, kbId, fmap, NoDocs(base), order) == Ok(st)
    {
      var dir :| dir in dirs;
      dirs := dirs - {dir};
      ghost var before := order;
      assert dir !in Elements(order);
      order := order + [dir];
      assert order[..|order| - 1] == before && Elements(order) == Elements(before) + {dir};
      var next := ImportDocument(archive, k, kbId, fmap, st, dir);
      if next.Err? {
        return next, order;
      }
      st := next.value;
    }
    return Ok(st), order;
  }

  method ImportDocument(archive: seq<Entry>, k: Codec, kbId: nat, fmap: map<string, nat>, st: DocState, dir: string)
    returns (r: Result<DocState, ImportError>)
    ensures r == ImportDoc(archive, k, kbId, fmap, st, dir)
  {
    if !HasEntry(archive, DocPath(dir, META_NAME)) {
      return Ok(st);
    }
    var meta := k.loadDoc(Read(archive, DocPath(dir, META_NAME)));
    if meta.None? {
      return Err(BadJson);
    }
    var m := meta.value;
    var folder: Option<nat> := None;
    if m.folderId.Some? && m.folderId.value in fmap {
      folder := Some(fmap[m.folderId.value]);
    }
    var id := st.nextId;
    var doc := Document(id, m.title, m.sourceType, None, folder, m.fileSize, m.fileHash, m.chunkCount, m.tokenCount, false);
    var files := st.files;
    if HasEntry(archive, DocPath(dir, m.title)) {
      var key := FileKey(kbId, id, m.title);
      files := files[key := Read(archive, DocPath(dir, m.title))];
      doc := doc.(filePath := Some(key));
    }
    return Ok(DocState(st.docs + [doc], st.idMap[m.id := id], files, id + 1));
  }

  method ImportChunks(k: Codec, fmap: map<string, nat>, dmap: map<string, nat>, base: nat, lines: seq<string>)
    returns (r: Result<ChunkState, ImportError>)
    ensures r == ImportLines(k, fmap, dmap, ChunkState([], base), lines)
  {
    var chunks: seq<Chunk> := [];
    var nextId := base;
    for i := 0 to |lines|
      invariant ImportLines(k, fmap, dmap, ChunkState([], base), lines[..i]) == Ok(ChunkState(chunks, nextId))
    {
      assert lines[..i + 1][..i] == lines[..i];
      var line := lines[i];
      if Strip(line) != "" {
        var cd := k.loadChunk(line);
        if cd.None? {
          LinesStop(k, fmap, dmap, ChunkState([], base), lines, i + 1);
          return Err(BadJson);
        }
        var c := cd.value;
        if c.documentId in dmap {
          chunks := chunks + [Chunk(nextId, "document", dmap[c.documentId], Mapped(c.folderId, fmap), c.content, c.level,
                                    c.position, c.tokenCount, c.qualityScore, c.metadata, false)];
          nextId := nextId + 1;
        }
      }
    }
    assert lines[..|lines|] == lines;
    return Ok(ChunkState(chunks, nextId));
  }

  lemma {:induction false} LinesStop(k: Codec, fmap: map<string, nat>, dmap: map<string, nat>, st: ChunkState, lines: seq<string>, n: nat)
    requires n <= |lines| && ImportLines(k, fmap, dmap, st, lines[..n]).Err?
    ensures ImportLines(k, fmap, dmap, st, lines) == ImportLines(k, fmap, dmap, st, lines[..n])
    decreases |lines|
  {
    if n == |lines| {
      assert lines[..n] == lines;
    } else {
      assert lines[..|lines| - 1][..n] == lines[..n];
      LinesStop(k, fmap, dmap, st, lines[..|lines| - 1], n);
    }
  }

  /** Export and import composed, whatever order the import happens to choose: a copy exactly if no document titled meta.json does harm. */
  method CopyKb(kb: Kb, storage: map<FileKey, string>, k: Codec, manifest: string, base: nat) returns (r: Result<Imported, ImportError>)
    requires WellFormed(kb) && CodecOk(k)
    ensures (r.Ok? && IsCopy(k, kb, storage, r.value, base))
            <==> AllHarmless(k, Texts(k, FolderIds(kb.folders)), storage, Exported(kb.docs))
  {
    var archive := ExportKb(kb, storage, k, manifest);
    var order;
    r, order := ImportKb(archive, k, base, false);
    if r.Ok? {
      RoundTripIff(kb, storage, k, manifest, base, order);
    } else {
      var visited := VisitedBehind(kb, storage, k, manifest, order);
      VisitSucceedsIff(kb, storage, k, manifest, base, order, visited);
      ExportedMeaning(kb.docs);
      forall d | d in visited ensures d in Exported(kb.docs) {
        var i :| 0 <= i < |visited| && visited[i] == d;
        assert IsDocOf(k, Exported(kb.docs), order[i], visited[i]);
      }
    }
  }
}
