/** Exactly when importing an export succeeds, and exactly when it yields a copy. */
module ExportExact {
  import opened Wrappers
  import opened Sequences
  import opened ExportSpec
  import opened ExportLemmas
  import opened ExportRoundTrip

  // --- What the document loop does with the records it finds, whatever they are ---

  ghost predicate Visits(a: seq<Entry>, k: Codec, order: seq<string>, recs: seq<DocRec>) {
    && |recs| == |order|
    && forall i :: 0 <= i < |order| ==>
         HasEntry(a, DocPath(order[i], META_NAME)) && k.loadDoc(Read(a, DocPath(order[i], META_NAME))) == Some(recs[i])
  }

  ghost predicate ListFrom(a: seq<Entry>, kbId: nat, fmap: map<string, nat>, base: nat, order: seq<string>, recs: seq<DocRec>, docs: seq<Document>) {
    && |docs| == |recs| == |order|
    && forall i :: 0 <= i < |docs| ==> docs[i] == DocFrom(a, kbId, fmap, base + i, order[i], recs[i])
  }

  ghost predicate IdsFrom(base: nat, recs: seq<DocRec>, idMap: map<string, nat>) {
    && (forall i :: 0 <= i < |recs| ==> recs[i].id in idMap)
    && (forall t :: t in idMap ==> exists i :: 0 <= i < |recs| && recs[i].id == t && idMap[t] == base + i)
  }

  ghost predicate FilesFrom(a: seq<Entry>, kbId: nat, base: nat, order: seq<string>, recs: seq<DocRec>, files: map<FileKey, string>) {
    && |recs| == |order|
    && (forall i :: 0 <= i < |recs| && HasEntry(a, DocPath(order[i], recs[i].title)) ==>
          var key := FileKey(kbId, base + i, recs[i].title);
          key in files && files[key] == Read(a, DocPath(order[i], recs[i].title)))
    && (forall key :: key in files ==> key.docId < base + |recs|)
  }

  ghost predicate RecsImported(a: seq<Entry>, kbId: nat, fmap: map<string, nat>, base: nat, order: seq<string>, recs: seq<DocRec>, ds: DocState) {
    && ds.nextId == base + |recs|
    && ListFrom(a, kbId, fmap, base, order, recs, ds.docs) && IdsFrom(base, recs, ds.idMap)
    && FilesFrom(a, kbId, base, order, recs, ds.files)
  }

  lemma IdsGrow(base: nat, recs: seq<DocRec>, idMap: map<string, nat>, rec: DocRec)
    requires IdsFrom(base, recs, idMap)
    ensures IdsFrom(base, recs + [rec], idMap[rec.id := base + |recs|])
  {
    var recs', m := recs + [rec], idMap[rec.id := base + |recs|];
    forall t | t in m ensures exists i :: 0 <= i < |recs'| && recs'[i].id == t && m[t] == base + i {
      if t == rec.id {
        assert recs'[|recs|].id == t;
      } else {
        var i :| 0 <= i < |recs| && recs[i].id == t && idMap[t] == base + i;
        assert recs'[i].id == t;
      }
    }
  }

  lemma FilesFromGrow(a: seq<Entry>, kbId: nat, base: nat, order: seq<string>, recs: seq<DocRec>, files: map<FileKey, string>, dir: string, rec: DocRec)
    requires FilesFrom(a, kbId, base, order, recs, files)
    ensures FilesFrom(a, kbId, base, order + [dir], recs + [rec],
                      if HasEntry(a, DocPath(dir, rec.title))
                      then files[FileKey(kbId, base + |recs|, rec.title) := Read(a, DocPath(dir, rec.title))] else files)
  {
    assert forall i :: 0 <= i < |recs| ==> (recs + [rec])[i] == recs[i] && (order + [dir])[i] == order[i];
  }

  lemma ListFromGrow(a: seq<Entry>, kbId: nat, fmap: map<string, nat>, base: nat, order: seq<string>, recs: seq<DocRec>, docs: seq<Document>,
                     dir: string, rec: DocRec)
    requires ListFrom(a, kbId, fmap, base, order, recs, docs)
    ensures ListFrom(a, kbId, fmap, base, order + [dir], recs + [rec], docs + [DocFrom(a, kbId, fmap, base + |recs|, dir, rec)])
  {
  }

  lemma OneRecImports(a: seq<Entry>, kbId: nat, fmap: map<string, nat>, base: nat, order: seq<string>, recs: seq<DocRec>, st: DocState,
                      dir: string, rec: DocRec)
    requires RecsImported(a, kbId, fmap, base, order, recs, st)
    ensures RecsImported(a, kbId, fmap, base, order + [dir], recs + [rec], AfterRecord(a, kbId, fmap, st, dir, rec))
  {
    ListFromGrow(a, kbId, fmap, base, order, recs, st.docs, dir, rec);
    IdsGrow(base, recs, st.idMap, rec);
    FilesFromGrow(a, kbId, base, order, recs, st.files, dir, rec);
  }

  lemma NothingImported(a: seq<Entry>, kbId: nat, fmap: map<string, nat>, base: nat)
    ensures RecsImported(a, kbId, fmap, base, [], [], NoDocs(base))
  {
  }

  lemma VisitsLast(a: seq<Entry>, k: Codec, order: seq<string>, recs: seq<DocRec>)
    requires order != [] && Visits(a, k, order, recs)
    ensures var n := |order| - 1;
            && Visits(a, k, order[..n], recs[..n])
            && HasEntry(a, DocPath(order[n], META_NAME)) && k.loadDoc(Read(a, DocPath(order[n], META_NAME))) == Some(recs[n])
            && order == order[..n] + [order[n]] && recs == recs[..n] + [recs[n]]
  {
  }

  lemma {:induction false} DocsImport(a: seq<Entry>, k: Codec, kbId: nat, fmap: map<string, nat>, base: nat, order: seq<string>, recs: seq<DocRec>)
    requires Visits(a, k, order, recs)
    ensures ImportDocs(a, k, kbId, fmap, NoDocs(base), order).Ok?
    ensures RecsImported(a, kbId, fmap, base, order, recs, ImportDocs(a, k, kbId, fmap, NoDocs(base), order).value)
    decreases |order|
  {
    if order == [] {
      NothingImported(a, kbId, fmap, base);
    } else {
      var n := |order| - 1;
      var front, dir, first, rec := order[..n], order[n], recs[..n], recs[n];
      VisitsLast(a, k, order, recs);
      DocsImport(a, k, kbId, fmap, base, front, first);
      var st := ImportDocs(a, k, kbId, fmap, NoDocs(base), front).value;
      assert ImportDocs(a, k, kbId, fmap, NoDocs(base), order) == Ok(AfterRecord(a, kbId, fmap, st, dir, rec));
      OneRecImports(a, kbId, fmap, base, front, first, st, dir, rec);
    }
  }

  ghost predicate Parses(a: seq<Entry>, k: Codec, dir: string) {
    HasEntry(a, DocPath(dir, META_NAME)) ==> k.loadDoc(Read(a, DocPath(dir, META_NAME))).Some?
  }

  lemma {:induction false} DocsImportIff(a: seq<Entry>, k: Codec, kbId: nat, fmap: map<string, nat>, st: DocState, order: seq<string>)
    ensures ImportDocs(a, k, kbId, fmap, st, order).Ok? <==> forall i :: 0 <= i < |order| ==> Parses(a, k, order[i])
  {
    if order != [] { DocsImportIff(a, k, kbId, fmap, st, order[..|order| - 1]); }
  }

  lemma RecordsBehind(a: seq<Entry>, k: Codec, order: seq<string>) returns (recs: seq<DocRec>)
    requires forall i :: 0 <= i < |order| ==> Parses(a, k, order[i]) && HasEntry(a, DocPath(order[i], META_NAME))
    ensures Visits(a, k, order, recs)
  {
    recs := seq(|order|, i requires 0 <= i < |order| => k.loadDoc(Read(a, DocPath(order[i], META_NAME))).value);
  }

  lemma DistinctIds(base: nat, recs: seq<DocRec>, idMap: map<string, nat>)
    requires IdsFrom(base, recs, idMap) && |idMap| == |recs|
    ensures forall i, j :: 0 <= i < j < |recs| ==> recs[i].id != recs[j].id
  {
    var ids := seq(|recs|, i requires 0 <= i < |recs| => recs[i].id);
    forall t | t in idMap ensures t in Elements(ids) {
      var i :| 0 <= i < |recs| && recs[i].id == t && idMap[t] == base + i;
      assert ids[i] == t;
    }
    assert Elements(ids) == idMap.Keys;
    ElementsSize(ids);
    forall i, j | 0 <= i < j < |recs| ensures recs[i].id != recs[j].id { assert ids[i] != ids[j]; }
  }

  // --- When the import succeeds ---

  /** Whatever the archive holds under the name of the document's metadata is a record. */
  ghost predicate Readable(k: Codec, storage: map<FileKey, string>, d: Document) {
    d.title == META_NAME && Stored(d, storage).Some? ==> k.loadDoc(Stored(d, storage).value).Some?
  }

  lemma ReadableIffParses(kb: Kb, storage: map<FileKey, string>, k: Codec, manifest: string, d: Document)
    requires CodecOk(k) && DistinctDocs(Exported(kb.docs)) && d in Exported(kb.docs)
    ensures var a := ArchiveOf(kb, storage, k, manifest);
            && HasEntry(a, DocPath(k.idText(d.id), META_NAME))
            && (Readable(k, storage, d) <==> Parses(a, k, k.idText(d.id)))
  {
    ArchiveReads(kb, storage, k, manifest);
    assert DocReads(ArchiveOf(kb, storage, k, manifest), d, META_NAME, storage, k);
    assert k.loadDoc(k.dumpDoc(ToDocRec(k, d))) == Some(ToDocRec(k, d));
  }

  /** The folders' renaming in importing an export. */
  ghost function FolderIdsOf(kb: Kb, k: Codec, base: nat): map<string, nat> {
    FolderMap(FolderRecs(k, kb.folders), base + 1)
  }

  /** The document loop of importing an export. */
  ghost function DocsOf(kb: Kb, storage: map<FileKey, string>, k: Codec, manifest: string, base: nat, order: seq<string>): Result<DocState, ImportError> {
    ImportDocs(ArchiveOf(kb, storage, k, manifest), k, base, FolderIdsOf(kb, k, base), NoDocs(base + 1 + |kb.folders|), order)
  }

  lemma ContentsDecide(a: seq<Entry>, k: Codec, base: nat, order: seq<string>, config: Config, recs: seq<FolderRec>,
                       fmap: map<string, nat>, lines: seq<string>, docs: Result<DocState, ImportError>, cs: ChunkState)
    requires docs == ImportDocs(a, k, base, fmap, NoDocs(base + 1 + |recs|), order)
    requires docs.Ok? ==> ImportLines(k, fmap, docs.value.idMap, ChunkState([], docs.value.nextId), lines) == Ok(cs)
    ensures ImportContents(a, k, base, order, config, recs, fmap, lines)
            == match docs case Err(e) => Err(e) case Ok(ds) => Ok(Assemble(base, config, recs, ds, cs))
  {
  }

  /** Folders and chunks never fail the import, so the documents decide. */
  lemma DocumentsDecide(kb: Kb, storage: map<FileKey, string>, k: Codec, manifest: string, base: nat, order: seq<string>) returns (cs: ChunkState)
    requires CodecOk(k)
    ensures var docs := DocsOf(kb, storage, k, manifest, base, order);
            Import(ArchiveOf(kb, storage, k, manifest), k, base, false, order)
            == match docs case Err(e) => Err(e) case Ok(ds) => Ok(Assemble(base, kb.config, FolderRecs(k, kb.folders), ds, cs))
  {
    var a := ArchiveOf(kb, storage, k, manifest);
    var recs := FolderRecs(k, kb.folders);
    var fmap := FolderIdsOf(kb, k, base);
    var docs := DocsOf(kb, storage, k, manifest, base, order);
    ImportReadsHeader(kb, storage, k, manifest, base, order);
    cs := ChunkState([], 0);
    if docs.Ok? { cs := RoundTripChunks(kb, storage, k, manifest, docs.value.nextId, fmap, docs.value.idMap); }
    ContentsDecide(a, k, base, order, kb.config, recs, fmap, ChunkLines(a, false), docs, cs);
  }

  /** Visiting some of the directories succeeds exactly if the documents behind them are readable. */
  lemma VisitSucceedsIff(kb: Kb, storage: map<FileKey, string>, k: Codec, manifest: string, base: nat, order: seq<string>, visited: seq<Document>)
    requires WellFormed(kb) && CodecOk(k) && RowsOf(k, visited, Exported(kb.docs), order)
    ensures Import(ArchiveOf(kb, storage, k, manifest), k, base, false, order).Ok?
            <==> forall d :: d in visited ==> Readable(k, storage, d)
  {
    var a := ArchiveOf(kb, storage, k, manifest);
    ExportedMeaning(kb.docs);
    var cs := DocumentsDecide(kb, storage, k, manifest, base, order);
    DocsImportIff(a, k, base, FolderIdsOf(kb, k, base), NoDocs(base + 1 + |kb.folders|), order);
    forall i | 0 <= i < |order| ensures Readable(k, storage, visited[i]) <==> Parses(a, k, order[i]) {
      assert IsDocOf(k, Exported(kb.docs), order[i], visited[i]);
      ReadableIffParses(kb, storage, k, manifest, visited[i]);
    }
    assert forall i :: 0 <= i < |visited| ==> visited[i] in visited;
  }

  lemma VisitedBehind(kb: Kb, storage: map<FileKey, string>, k: Codec, manifest: string, order: seq<string>) returns (visited: seq<Document>)
    requires WellFormed(kb) && CodecOk(k) && Distinct(order) && Elements(order) <= DocDirs(ArchiveOf(kb, storage, k, manifest))
    ensures RowsOf(k, visited, Exported(kb.docs), order)
    ensures Elements(order) == DocDirs(ArchiveOf(kb, storage, k, manifest)) ==>
              DistinctDocs(visited) && forall d :: d in visited <==> d in Exported(kb.docs)
  {
    var docs := Exported(kb.docs);
    ExportedMeaning(kb.docs);
    forall i | 0 <= i < |order| ensures HasDoc(k, docs, order[i]) {
      assert order[i] in Elements(order);
      ArchiveDirs(kb, storage, k, manifest, order[i]);
    }
    visited := RowsBehind(k, docs, order);
    if Elements(order) == DocDirs(ArchiveOf(kb, storage, k, manifest)) {
      forall dir ensures dir in order <==> HasDoc(k, docs, dir) {
        ArchiveDirs(kb, storage, k, manifest, dir);
        assert dir in order <==> dir in Elements(order);
      }
      RowsAreExported(k, docs, order, visited);
    }
  }

  /** Importing an export succeeds exactly if every exported document titled meta.json has no file or one that is a record. */
  lemma ImportSucceedsIff(kb: Kb, storage: map<FileKey, string>, k: Codec, manifest: string, base: nat, order: seq<string>)
    requires WellFormed(kb) && CodecOk(k)
    requires Distinct(order) && Elements(order) == DocDirs(ArchiveOf(kb, storage, k, manifest))
    ensures Import(ArchiveOf(kb, storage, k, manifest), k, base, false, order).Ok?
            <==> forall d :: d in Exported(kb.docs) ==> Readable(k, storage, d)
  {
    var visited := VisitedBehind(kb, storage, k, manifest, order);
    VisitSucceedsIff(kb, storage, k, manifest, base, order, visited);
  }

  // --- When the import is a copy ---

  /** In a copy, the record found at step j is, up to the folder reference, that of the document that step j reproduces. */
  lemma RecordOfRow(k: Codec, kbId: nat, a: seq<Entry>, fmap: map<string, nat>, base: nat, order: seq<string>, recs: seq<DocRec>,
                    ds: DocState, storage: map<FileKey, string>, source: seq<Document>, rows: seq<Document>, ids: set<nat>, j: nat)
    requires RecsImported(a, kbId, fmap, base, order, recs, ds) && j < |recs|
    requires DocsIso(k, source, storage, kbId, ds.docs, ds.files, fmap, ds.idMap, rows) && IsRenaming(k, fmap, ids)
    ensures SameRecord(fmap.Keys, recs[j], ToDocRec(k, rows[j]))
    ensures HasEntry(a, DocPath(order[j], recs[j].title)) ==> Stored(rows[j], storage) == Some(Read(a, DocPath(order[j], recs[j].title)))
  {
    var t := k.idText(rows[j].id);
    assert ds.docs[j] == MovedDoc(k, rows[j], ds.idMap[t], kbId, fmap, Stored(rows[j], storage).Some?);
    var i :| 0 <= i < |recs| && recs[i].id == t && ds.idMap[t] == base + i;
    assert ds.docs[j] == DocFrom(a, kbId, fmap, base + j, order[j], recs[j]);
    assert i == j;
    SameImage(k, fmap, ids, recs[j].folderId, MaybeText(k, rows[j].folderId));
  }

  lemma SameImage(k: Codec, fmap: map<string, nat>, ids: set<nat>, t: Option<string>, u: Option<string>)
    requires IsRenaming(k, fmap, ids)
    ensures SameFolder(fmap.Keys, t, u) <==> Mapped(t, fmap) == Mapped(u, fmap)
  {
  }

  /** Steps that visit documents of other titles reproduce them, so the steps at meta.json documents reproduce such documents. */
  lemma TrapsMeetTraps(k: Codec, known: set<string>, docs: seq<Document>, visited: seq<Document>, recs: seq<DocRec>, rows: seq<Document>)
    requires IdsOk(k) && |visited| == |recs| == |rows| && DistinctDocs(docs) && DistinctDocs(rows)
    requires (forall d :: d in visited <==> d in docs) && (forall d :: d in rows <==> d in docs)
    requires forall i :: 0 <= i < |recs| ==> SameRecord(known, recs[i], ToDocRec(k, rows[i]))
    requires forall i :: 0 <= i < |recs| && visited[i].title != META_NAME ==> recs[i] == ToDocRec(k, visited[i])
    ensures forall i :: 0 <= i < |recs| && visited[i].title != META_NAME ==> rows[i] == visited[i]
    ensures forall j :: 0 <= j < |recs| && visited[j].title == META_NAME ==> rows[j].title == META_NAME
  {
    forall i | 0 <= i < |recs| && visited[i].title != META_NAME ensures rows[i] == visited[i] {
      assert visited[i] in visited && rows[i] in rows;
      assert k.idText(visited[i].id) == k.idText(rows[i].id);
      SameDoc(docs, rows[i], visited[i]);
    }
    forall j | 0 <= j < |recs| && visited[j].title == META_NAME ensures rows[j].title == META_NAME {
      assert rows[j] in rows;
      if rows[j].title != META_NAME {
        var i :| 0 <= i < |visited| && visited[i] == rows[j];
        assert false;
      }
    }
  }

  /** Two such steps cannot have read the same file, so each reproduces its own document. */
  lemma TrapsStayApart(k: Codec, storage: map<FileKey, string>, known: set<string>, visited: seq<Document>, recs: seq<DocRec>, rows: seq<Document>, j: nat)
    requires |visited| == |recs| == |rows| && j < |recs| && visited[j].title == META_NAME
    requires rows[j] in visited && forall i :: 0 <= i < |recs| && visited[i].title == META_NAME ==> rows[i].title == META_NAME
    requires forall i, l :: 0 <= i < l < |recs| ==> recs[i].id != recs[l].id
    requires forall i :: 0 <= i < |recs| && visited[i].title == META_NAME ==>
               Stored(rows[i], storage).Some? && k.loadDoc(Stored(rows[i], storage).value) == Some(recs[i])
    requires forall i :: 0 <= i < |recs| && visited[i].title == META_NAME && Stored(visited[i], storage).Some? ==>
               k.loadDoc(Stored(visited[i], storage).value) == Some(recs[i])
    requires SameRecord(known, recs[j], ToDocRec(k, rows[j]))
    ensures Harmless(k, known, storage, visited[j])
  {
    var i :| 0 <= i < |visited| && visited[i] == rows[j];
    assert visited[i].title == META_NAME;
    assert recs[i] == recs[j];
    assert i == j;
  }

  lemma FoundRecords(kb: Kb, storage: map<FileKey, string>, k: Codec, manifest: string, order: seq<string>, visited: seq<Document>, recs: seq<DocRec>)
    requires WellFormed(kb) && CodecOk(k) && RowsOf(k, visited, Exported(kb.docs), order)
    requires Visits(ArchiveOf(kb, storage, k, manifest), k, order, recs)
    ensures forall i :: 0 <= i < |recs| && visited[i].title != META_NAME ==> recs[i] == ToDocRec(k, visited[i])
    ensures forall i :: 0 <= i < |recs| && visited[i].title == META_NAME && Stored(visited[i], storage).Some? ==>
              k.loadDoc(Stored(visited[i], storage).value) == Some(recs[i])
  {
    ExportedMeaning(kb.docs);
    var a := ArchiveOf(kb, storage, k, manifest);
    ArchiveReads(kb, storage, k, manifest);
    forall i | 0 <= i < |recs|
      ensures visited[i].title != META_NAME ==> recs[i] == ToDocRec(k, visited[i])
      ensures visited[i].title == META_NAME && Stored(visited[i], storage).Some? ==>
                k.loadDoc(Stored(visited[i], storage).value) == Some(recs[i])
    {
      assert IsDocOf(k, Exported(kb.docs), order[i], visited[i]);
      assert DocReads(a, visited[i], META_NAME, storage, k);
      assert k.loadDoc(k.dumpDoc(ToDocRec(k, visited[i]))) == Some(ToDocRec(k, visited[i]));
    }
  }

  /** What the steps of an import have found, and which documents of the copy they made. */
  ghost predicate StepsOf(k: Codec, known: set<string>, storage: map<FileKey, string>, docs: seq<Document>,
                          visited: seq<Document>, recs: seq<DocRec>, rows: seq<Document>) {
    && |visited| == |recs| == |rows|
    && (forall d :: d in visited <==> d in docs) && (forall d :: d in rows <==> d in docs) && DistinctDocs(docs) && DistinctDocs(rows)
    && (forall i, j :: 0 <= i < j < |recs| ==> recs[i].id != recs[j].id)
    && (forall i :: 0 <= i < |recs| ==> SameRecord(known, recs[i], ToDocRec(k, rows[i])))
    && (forall i :: 0 <= i < |recs| && visited[i].title != META_NAME ==> recs[i] == ToDocRec(k, visited[i]))
    && (forall i :: 0 <= i < |recs| && visited[i].title == META_NAME && Stored(visited[i], storage).Some? ==>
          k.loadDoc(Stored(visited[i], storage).value) == Some(recs[i]))
    && (forall i :: 0 <= i < |recs| && visited[i].title == META_NAME && recs[i].title == META_NAME ==>
          Stored(rows[i], storage).Some? && k.loadDoc(Stored(rows[i], storage).value) == Some(recs[i]))
  }

  lemma StepsMeanHarmless(k: Codec, known: set<string>, storage: map<FileKey, string>, docs: seq<Document>,
                          visited: seq<Document>, recs: seq<DocRec>, rows: seq<Document>)
    requires IdsOk(k) && StepsOf(k, known, storage, docs, visited, recs, rows)
    ensures AllHarmless(k, known, storage, docs)
  {
    TrapsMeetTraps(k, known, docs, visited, recs, rows);
    forall i | 0 <= i < |recs| && visited[i].title == META_NAME ensures recs[i].title == META_NAME {
      assert SameRecord(known, recs[i], ToDocRec(k, rows[i]));
    }
    forall d | d in docs ensures Harmless(k, known, storage, d) {
      if d.title == META_NAME {
        var j :| 0 <= j < |visited| && visited[j] == d;
        assert rows[j] in rows;
        TrapsStayApart(k, storage, known, visited, recs, rows, j);
      }
    }
  }

  lemma CopyHasSteps(kb: Kb, storage: map<FileKey, string>, k: Codec, manifest: string, base: nat, order: seq<string>, ds: DocState,
                     visited: seq<Document>, recs: seq<DocRec>, rows: seq<Document>, fmap: map<string, nat>, n: nat)
    requires WellFormed(kb) && CodecOk(k) && RowsOf(k, visited, Exported(kb.docs), order)
    requires forall d :: d in visited <==> d in Exported(kb.docs)
    requires Visits(ArchiveOf(kb, storage, k, manifest), k, order, recs)
    requires RecsImported(ArchiveOf(kb, storage, k, manifest), base, fmap, n, order, recs, ds)
    requires IsRenaming(k, fmap, FolderIds(kb.folders))
    requires DocsIso(k, kb.docs, storage, base, ds.docs, ds.files, fmap, ds.idMap, rows)
    ensures StepsOf(k, fmap.Keys, storage, Exported(kb.docs), visited, recs, rows)
  {
    var a := ArchiveOf(kb, storage, k, manifest);
    ExportedMeaning(kb.docs);
    DistinctIds(n, recs, ds.idMap);
    FoundRecords(kb, storage, k, manifest, order, visited, recs);
    forall i | 0 <= i < |recs|
      ensures SameRecord(fmap.Keys, recs[i], ToDocRec(k, rows[i]))
      ensures visited[i].title == META_NAME && recs[i].title == META_NAME ==>
                Stored(rows[i], storage).Some? && k.loadDoc(Stored(rows[i], storage).value) == Some(recs[i])
    {
      RecordOfRow(k, base, a, fmap, n, order, recs, ds, storage, kb.docs, rows, FolderIds(kb.folders), i);
    }
  }

  /**
   Importing an export yields a copy, in whatever orders folders are listed and directories visited, exactly if every
   exported document titled meta.json has a file that reads as the document's own record, up to a folder reference
   that names no folder of the knowledge base.
   */
  lemma RoundTripIff(kb: Kb, storage: map<FileKey, string>, k: Codec, manifest: string, base: nat, order: seq<string>)
    requires WellFormed(kb) && CodecOk(k)
    requires Distinct(order) && Elements(order) == DocDirs(ArchiveOf(kb, storage, k, manifest))
    ensures var r := Import(ArchiveOf(kb, storage, k, manifest), k, base, false, order);
            (r.Ok? && IsCopy(k, kb, storage, r.value, base))
            <==> AllHarmless(k, Texts(k, FolderIds(kb.folders)), storage, Exported(kb.docs))
  {
    var a := ArchiveOf(kb, storage, k, manifest);
    var r := Import(a, k, base, false, order);
    if AllHarmless(k, Texts(k, FolderIds(kb.folders)), storage, Exported(kb.docs)) {
      var copy := RoundTrip(kb, storage, k, manifest, base, order);
    }
    if r.Ok? && IsCopy(k, kb, storage, r.value, base) {
      var ds, rows := CopyOfDocuments(kb, storage, k, manifest, base, order, r.value);
      OnlyIfHarmless(kb, storage, k, manifest, base, order, ds, rows);
    }
  }

  lemma RecordsFound(a: seq<Entry>, k: Codec, kbId: nat, fmap: map<string, nat>, base: nat, order: seq<string>, ds: DocState)
    returns (recs: seq<DocRec>)
    requires ImportDocs(a, k, kbId, fmap, NoDocs(base), order) == Ok(ds)
    requires forall i :: 0 <= i < |order| ==> HasEntry(a, DocPath(order[i], META_NAME))
    ensures Visits(a, k, order, recs) && RecsImported(a, kbId, fmap, base, order, recs, ds)
  {
    DocsImportIff(a, k, kbId, fmap, NoDocs(base), order);
    recs := RecordsBehind(a, k, order);
    DocsImport(a, k, kbId, fmap, base, order, recs);
  }

  lemma AllHaveMetadata(kb: Kb, storage: map<FileKey, string>, k: Codec, manifest: string, order: seq<string>, visited: seq<Document>)
    requires WellFormed(kb) && CodecOk(k) && RowsOf(k, visited, Exported(kb.docs), order)
    ensures forall i :: 0 <= i < |order| ==> HasEntry(ArchiveOf(kb, storage, k, manifest), DocPath(order[i], META_NAME))
  {
    ExportedMeaning(kb.docs);
    forall i | 0 <= i < |order| ensures HasEntry(ArchiveOf(kb, storage, k, manifest), DocPath(order[i], META_NAME)) {
      assert IsDocOf(k, Exported(kb.docs), order[i], visited[i]);
      ReadableIffParses(kb, storage, k, manifest, visited[i]);
    }
  }

  lemma DocsPart(kb: Kb, storage: map<FileKey, string>, k: Codec, base: nat, ds: DocState, cs: ChunkState, rows: seq<Document>)
    requires Isomorphic(k, kb, storage, Assemble(base, kb.config, FolderRecs(k, kb.folders), ds, cs), base, rows)
    ensures DocsIso(k, kb.docs, storage, base, ds.docs, ds.files, FolderIdsOf(kb, k, base), ds.idMap, rows)
  {
  }

  lemma DocsTellHarmless(kb: Kb, storage: map<FileKey, string>, k: Codec, manifest: string, base: nat, order: seq<string>, ds: DocState,
                         rows: seq<Document>, fmap: map<string, nat>, n: nat)
    requires WellFormed(kb) && CodecOk(k) && IsRenaming(k, fmap, FolderIds(kb.folders))
    requires ImportDocs(ArchiveOf(kb, storage, k, manifest), k, base, fmap, NoDocs(n), order) == Ok(ds)
    requires Distinct(order) && Elements(order) == DocDirs(ArchiveOf(kb, storage, k, manifest))
    requires DocsIso(k, kb.docs, storage, base, ds.docs, ds.files, fmap, ds.idMap, rows)
    ensures AllHarmless(k, fmap.Keys, storage, Exported(kb.docs))
  {
    var visited := VisitedBehind(kb, storage, k, manifest, order);
    AllHaveMetadata(kb, storage, k, manifest, order, visited);
    var recs := RecordsFound(ArchiveOf(kb, storage, k, manifest), k, base, fmap, n, order, ds);
    CopyHasSteps(kb, storage, k, manifest, base, order, ds, visited, recs, rows, fmap, n);
    StepsMeanHarmless(k, fmap.Keys, storage, Exported(kb.docs), visited, recs, rows);
  }

  lemma CopyOfDocuments(kb: Kb, storage: map<FileKey, string>, k: Codec, manifest: string, base: nat, order: seq<string>, r: Imported)
    returns (ds: DocState, rows: seq<Document>)
    requires CodecOk(k) && DistinctFolders(kb.folders)
    requires Import(ArchiveOf(kb, storage, k, manifest), k, base, false, order) == Ok(r) && IsCopy(k, kb, storage, r, base)
    ensures DocsOf(kb, storage, k, manifest, base, order) == Ok(ds)
    ensures DocsIso(k, kb.docs, storage, base, ds.docs, ds.files, FolderIdsOf(kb, k, base), ds.idMap, rows)
  {
    var cs := DocumentsDecide(kb, storage, k, manifest, base, order);
    ds := DocsOf(kb, storage, k, manifest, base, order).value;
    rows :| Isomorphic(k, kb, storage, r, base, rows);
    DocsPart(kb, storage, k, base, ds, cs, rows);
  }

  lemma OnlyIfHarmless(kb: Kb, storage: map<FileKey, string>, k: Codec, manifest: string, base: nat, order: seq<string>, ds: DocState,
                       rows: seq<Document>)
    requires WellFormed(kb) && CodecOk(k) && DocsOf(kb, storage, k, manifest, base, order) == Ok(ds)
    requires Distinct(order) && Elements(order) == DocDirs(ArchiveOf(kb, storage, k, manifest))
    requires DocsIso(k, kb.docs, storage, base, ds.docs, ds.files, FolderIdsOf(kb, k, base), ds.idMap, rows)
    ensures AllHarmless(k, Texts(k, FolderIds(kb.folders)), storage, Exported(kb.docs))
  {
    FolderIdsAreRenamed(kb, k, base);
    DocsTellHarmless(kb, storage, k, manifest, base, order, ds, rows, FolderIdsOf(kb, k, base), base + 1 + |kb.folders|);
  }

  lemma FolderIdsAreRenamed(kb: Kb, k: Codec, base: nat)
    requires DistinctFolders(kb.folders) && CodecOk(k)
    ensures IsRenaming(k, FolderIdsOf(kb, k, base), FolderIds(kb.folders))
    ensures FolderIdsOf(kb, k, base).Keys == Texts(k, FolderIds(kb.folders))
  {
    FolderMapIsRenaming(k, kb.folders, base + 1);
  }

  /** The folder reference is a real exception: a file that names a foreign folder where the document names none is harmless. */
  lemma ForeignFolderIsHarmless(k: Codec, known: set<string>, storage: map<FileKey, string>, d: Document, foreign: string)
    requires CodecOk(k) && d.title == META_NAME && d.folderId.None? && foreign !in known
    requires Stored(d, storage) == Some(k.dumpDoc(ToDocRec(k, d).(folderId := Some(foreign))))
    ensures Harmless(k, known, storage, d) && k.loadDoc(Stored(d, storage).value) != Some(ToDocRec(k, d))
  {
    assert k.loadDoc(k.dumpDoc(ToDocRec(k, d).(folderId := Some(foreign)))) == Some(ToDocRec(k, d).(folderId := Some(foreign)));
  }

  // --- Importing for a new chunking ---

  ghost predicate SameButChunks(r: Imported, s: Imported) {
    && r.kb.id == s.kb.id && r.kb.config == s.kb.config && r.kb.folders == s.kb.folders && r.kb.docs == s.kb.docs
    && r.files == s.files && r.documentCount == s.documentCount && r.folderIds == s.folderIds && r.docIds == s.docIds
  }

  lemma ContentsWithoutLines(a: seq<Entry>, k: Codec, base: nat, order: seq<string>, config: Config, recs: seq<FolderRec>,
                             fmap: map<string, nat>, lines: seq<string>)
    ensures var r := ImportContents(a, k, base, order, config, recs, fmap, []);
            && (r.Ok? ==> r.value.kb.chunks == [])
            && var s := ImportContents(a, k, base, order, config, recs, fmap, lines);
            (s.Ok? ==> r.Ok? && SameButChunks(r.value, s.value))
  {
    var ds := ImportDocs(a, k, base, fmap, NoDocs(base + 1 + |recs|), order);
    if ds.Ok? {
      assert ImportLines(k, fmap, ds.value.idMap, ChunkState([], ds.value.nextId), []) == Ok(ChunkState([], ds.value.nextId));
    }
  }

  /** With re-chunking asked for, no archived chunk is imported, whatever the archive; everything else comes in as without it. */
  lemma ReChunkLeavesChunksOut(a: seq<Entry>, k: Codec, base: nat, order: seq<string>, r: Result<Imported, ImportError>, s: Result<Imported, ImportError>)
    requires r == Import(a, k, base, true, order) && s == Import(a, k, base, false, order)
    ensures r.Ok? ==> r.value.kb.chunks == []
    ensures s.Ok? ==> r.Ok? && SameButChunks(r.value, s.value)
  {
    var lines := ChunkLines(a, false);
    assert ChunkLines(a, true) == [];
    if HasEntry(a, CONFIG_NAME) {
      match (k.loadConfig(Read(a, CONFIG_NAME)), ReadFolders(a, k))
      case (Some(config), Some(recs)) => ContentsWithoutLines(a, k, base, order, config, recs, FolderMap(recs, base + 1), lines);
      case _ =>
    }
  }
}
