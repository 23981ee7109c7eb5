/** Importing what was exported reproduces the knowledge base up to renamed ids. */
module ExportRoundTrip {
  import opened Wrappers
  import opened Sequences
  import opened Text
  import opened ExportSpec
  import opened ExportLemmas

  // --- Folders ---

  ghost predicate DistinctFolders(folders: seq<Folder>) {
    forall i, j :: 0 <= i < j < |folders| ==> folders[i].id != folders[j].id
  }

  ghost function Texts(k: Codec, ids: set<nat>): set<string> {
    set i | i in ids :: k.idText(i)
  }

  /** A one-to-one map from the texts of the old ids to new ids. */
  ghost predicate IsRenaming(k: Codec, m: map<string, nat>, ids: set<nat>) {
    && m.Keys == Texts(k, ids)
    && (forall s, t :: s in m && t in m && s != t ==> m[s] != m[t])
  }

  ghost function FolderIds(folders: seq<Folder>): set<nat> {
    set f | f in folders :: f.id
  }

  /** The map from id texts to new ids holds exactly the folders, folder i under base + i. */
  ghost predicate MapsFolders(k: Codec, folders: seq<Folder>, base: nat, m: map<string, nat>) {
    && (forall i :: 0 <= i < |folders| ==> k.idText(folders[i].id) in m && m[k.idText(folders[i].id)] == base + i)
    && (forall t :: t in m ==> exists i :: 0 <= i < |folders| && t == k.idText(folders[i].id))
  }

  lemma FolderMapGrows(k: Codec, folders: seq<Folder>, base: nat, m: map<string, nat>, f: Folder)
    requires IdsOk(k) && MapsFolders(k, folders, base, m) && forall i :: 0 <= i < |folders| ==> folders[i].id != f.id
    ensures MapsFolders(k, folders + [f], base, m[k.idText(f.id) := base + |folders|])
  {
    var all, m' := folders + [f], m[k.idText(f.id) := base + |folders|];
    assert forall i :: 0 <= i < |folders| ==> all[i] == folders[i];
    forall t | t in m' ensures exists i :: 0 <= i < |all| && t == k.idText(all[i].id) {
      if t == k.idText(f.id) {
        assert t == k.idText(all[|folders|].id);
      } else {
        var i :| 0 <= i < |folders| && t == k.idText(folders[i].id);
        assert t == k.idText(all[i].id);
      }
    }
  }

  lemma FolderMapLast(k: Codec, front: seq<Folder>, f: Folder, base: nat)
    ensures FolderMap(FolderRecs(k, front + [f]), base) == FolderMap(FolderRecs(k, front), base)[k.idText(f.id) := base + |front|]
  {
    assert FolderRecs(k, front + [f])[..|front|] == FolderRecs(k, front);
  }

  lemma {:induction false} FolderMapMeaning(k: Codec, folders: seq<Folder>, base: nat)
    requires IdsOk(k) && DistinctFolders(folders)
    ensures MapsFolders(k, folders, base, FolderMap(FolderRecs(k, folders), base))
  {
    if folders == [] {
      NoFolders(k, base);
    } else {
      var front, f := folders[..|folders| - 1], folders[|folders| - 1];
      FolderMapMeaning(k, front, base);
      OneFolder(k, front, f, base);
      assert folders == front + [f];
    }
  }

  lemma NoFolders(k: Codec, base: nat)
    ensures MapsFolders(k, [], base, FolderMap(FolderRecs(k, []), base))
  {
  }

  lemma OneFolder(k: Codec, front: seq<Folder>, f: Folder, base: nat)
    requires IdsOk(k) && MapsFolders(k, front, base, FolderMap(FolderRecs(k, front), base))
    requires forall i :: 0 <= i < |front| ==> front[i].id != f.id
    ensures MapsFolders(k, front + [f], base, FolderMap(FolderRecs(k, front + [f]), base))
  {
    FolderMapGrows(k, front, base, FolderMap(FolderRecs(k, front), base), f);
    FolderMapLast(k, front, f, base);
  }

  lemma FolderMapIsRenaming(k: Codec, folders: seq<Folder>, base: nat)
    requires IdsOk(k)
    requires DistinctFolders(folders)
    ensures IsRenaming(k, FolderMap(FolderRecs(k, folders), base), FolderIds(folders))
  {
    FolderMapMeaning(k, folders, base);
    var m := FolderMap(FolderRecs(k, folders), base);
    forall t | t in m ensures t in Texts(k, FolderIds(folders)) {
      var i :| 0 <= i < |folders| && t == k.idText(folders[i].id);
      assert folders[i].id in FolderIds(folders);
    }
    forall t | t in Texts(k, FolderIds(folders)) ensures t in m {
      var id :| id in FolderIds(folders) && t == k.idText(id);
      var f :| f in folders && f.id == id;
      var j :| 0 <= j < |folders| && folders[j] == f;
      assert k.idText(folders[j].id) in m;
    }
    FolderMapIsInjective(k, folders, base);
  }

  lemma FolderMapIsInjective(k: Codec, folders: seq<Folder>, base: nat)
    requires IdsOk(k)
    requires DistinctFolders(folders)
    ensures var m := FolderMap(FolderRecs(k, folders), base);
            forall s, t :: s in m && t in m && s != t ==> m[s] != m[t]
  {
    FolderMapMeaning(k, folders, base);
    var m := FolderMap(FolderRecs(k, folders), base);
    forall s, t | s in m && t in m && s != t ensures m[s] != m[t] {
      var i :| 0 <= i < |folders| && s == k.idText(folders[i].id);
      var j :| 0 <= j < |folders| && t == k.idText(folders[j].id);
      assert i != j;
    }
  }

  function MovedFolder(k: Codec, f: Folder, fmap: map<string, nat>): Folder
    requires k.idText(f.id) in fmap
  {
    Folder(fmap[k.idText(f.id)], f.name, Mapped(MaybeText(k, f.parent), fmap), f.position)
  }

  /** After the second pass over the first n records, exactly those have their parents. */
  ghost predicate RelinkedTo(k: Codec, folders: seq<Folder>, base: nat, fmap: map<string, nat>, r: seq<Folder>, n: nat) {
    && |r| == |folders|
    && (forall i :: 0 <= i < |folders| ==> k.idText(folders[i].id) in fmap && fmap[k.idText(folders[i].id)] == base + i)
    && (forall i :: 0 <= i < |folders| ==>
          r[i] == if i < n then MovedFolder(k, folders[i], fmap) else Folder(base + i, folders[i].name, None, folders[i].position))
  }

  lemma OneRelink(k: Codec, folders: seq<Folder>, base: nat, fmap: map<string, nat>, r: seq<Folder>, n: nat)
    requires n < |folders| && RelinkedTo(k, folders, base, fmap, r, n)
    ensures var rec := ToFolderRec(k, folders[n]);
            && rec.id in fmap
            && RelinkedTo(k, folders, base, fmap,
                 if rec.parentFolderId.Some? && rec.parentFolderId.value in fmap
                 then SetParent(r, fmap[rec.id], fmap[rec.parentFolderId.value]) else r, n + 1)
  {
    forall i | 0 <= i < |folders| ensures r[i].id == base + i {}
  }

  lemma RelinkLast(folders: seq<Folder>, recs: seq<FolderRec>, fmap: map<string, nat>, n: nat)
    requires n < |recs|
    ensures var rec := recs[n];
            var before := Relink(folders, recs[..n], fmap);
            Relink(folders, recs[..n + 1], fmap) ==
              if rec.parentFolderId.Some? && rec.parentFolderId.value in fmap && rec.id in fmap
              then SetParent(before, fmap[rec.id], fmap[rec.parentFolderId.value]) else before
  {
    assert recs[..n + 1][..n] == recs[..n];
  }

  lemma {:induction false} RelinkPrefix(k: Codec, folders: seq<Folder>, recs: seq<FolderRec>, base: nat, fmap: map<string, nat>, n: nat)
    requires n <= |folders| && recs == FolderRecs(k, folders)
    requires forall i :: 0 <= i < |folders| ==> k.idText(folders[i].id) in fmap && fmap[k.idText(folders[i].id)] == base + i
    ensures RelinkedTo(k, folders, base, fmap, Relink(NewFolders(recs, base), recs[..n], fmap), n)
  {
    var start := NewFolders(recs, base);
    if n == 0 {
      assert recs[..0] == [];
      assert Relink(start, [], fmap) == start;
    } else {
      RelinkPrefix(k, folders, recs, base, fmap, n - 1);
      RelinkLast(start, recs, fmap, n - 1);
      assert recs[n - 1] == ToFolderRec(k, folders[n - 1]);
      OneRelink(k, folders, base, fmap, Relink(start, recs[..n - 1], fmap), n - 1);
    }
  }

  lemma FoldersSurvive(k: Codec, folders: seq<Folder>, base: nat)
    requires IdsOk(k)
    requires DistinctFolders(folders)
    ensures var recs := FolderRecs(k, folders);
            var fmap := FolderMap(recs, base);
            var r := Relink(NewFolders(recs, base), recs, fmap);
            && |r| == |folders|
            && forall i :: 0 <= i < |folders| ==> k.idText(folders[i].id) in fmap && r[i] == MovedFolder(k, folders[i], fmap)
  {
    var recs := FolderRecs(k, folders);
    FolderMapMeaning(k, folders, base);
    RelinkPrefix(k, folders, recs, base, FolderMap(recs, base), |folders|);
    assert recs[..|folders|] == recs;
  }

  // --- Documents ---

  /**
   The trap: a stored file of a document titled meta.json takes the place of its metadata. The metadata survives
   exactly when there is no such file, or when the file happens to parse to the same record.
   */
  lemma MetaSurvivesIff(kb: Kb, storage: map<FileKey, string>, k: Codec, manifest: string, d: Document)
    requires CodecOk(k) && DistinctDocs(Exported(kb.docs)) && d in Exported(kb.docs)
    ensures var a := ArchiveOf(kb, storage, k, manifest);
            k.loadDoc(Read(a, DocPath(k.idText(d.id), META_NAME))) == Some(ToDocRec(k, d)) <==>
            (d.title != META_NAME || Stored(d, storage).None? || k.loadDoc(Stored(d, storage).value) == Some(ToDocRec(k, d)))
  {
    ArchiveReads(kb, storage, k, manifest);
    assert DocReads(ArchiveOf(kb, storage, k, manifest), d, META_NAME, storage, k);
  }

  /** Folder references that an import treats alike: equal, or neither names a known folder. */
  predicate SameFolder(known: set<string>, t: Option<string>, u: Option<string>) {
    t == u || ((t.None? || t.value !in known) && (u.None? || u.value !in known))
  }

  predicate SameRecord(known: set<string>, r: DocRec, s: DocRec) {
    r.(folderId := None) == s.(folderId := None) && SameFolder(known, r.folderId, s.folderId)
  }

  /** A document titled meta.json does no harm exactly if its own file stands in for its metadata. */
  predicate Harmless(k: Codec, known: set<string>, storage: map<FileKey, string>, d: Document) {
    d.title == META_NAME ==>
      && Stored(d, storage).Some? && k.loadDoc(Stored(d, storage).value).Some?
      && SameRecord(known, k.loadDoc(Stored(d, storage).value).value, ToDocRec(k, d))
  }

  ghost predicate AllHarmless(k: Codec, known: set<string>, storage: map<FileKey, string>, docs: seq<Document>) {
    forall d :: d in docs ==> Harmless(k, known, storage, d)
  }

  /** What happens otherwise: a file that is no record fails the import, and without a file the metadata comes back as the file. */
  lemma MetaTitleBreaks(kb: Kb, storage: map<FileKey, string>, k: Codec, manifest: string, d: Document,
                        kbId: nat, fmap: map<string, nat>, st: DocState)
    requires CodecOk(k) && DistinctDocs(Exported(kb.docs)) && d in Exported(kb.docs) && d.title == META_NAME
    ensures var r := ImportDoc(ArchiveOf(kb, storage, k, manifest), k, kbId, fmap, st, k.idText(d.id));
            match Stored(d, storage)
            case Some(data) => k.loadDoc(data).None? ==> r == Err(BadJson)
            case None =>
              var key := FileKey(kbId, st.nextId, META_NAME);
              r.Ok? && key in r.value.files && r.value.files[key] == k.dumpDoc(ToDocRec(k, d)) &&
              r.value.docs == st.docs + [MovedDoc(k, d, st.nextId, kbId, fmap, true)]
  {
    ArchiveReads(kb, storage, k, manifest);
    assert DocReads(ArchiveOf(kb, storage, k, manifest), d, META_NAME, storage, k);
    assert k.loadDoc(k.dumpDoc(ToDocRec(k, d))) == Some(ToDocRec(k, d));
  }

  ghost predicate IsDocOf(k: Codec, docs: seq<Document>, dir: string, d: Document) {
    d in docs && k.idText(d.id) == dir
  }

  ghost predicate HasDoc(k: Codec, docs: seq<Document>, dir: string) {
    exists d :: IsDocOf(k, docs, dir, d)
  }

  lemma {:induction false} EntriesDirs(docs: seq<Document>, storage: map<FileKey, string>, k: Codec, dir: string)
    requires IdsOk(k)
    ensures dir in DocDirs(DocEntries(docs, storage, k)) <==> HasDoc(k, docs, dir)
  {
    var a := DocEntries(docs, storage, k);
    if docs != [] {
      var n := |docs| - 1;
      var last := docs[n];
      EntriesDirs(docs[..n], storage, k, dir);
      assert a == DocEntries(docs[..n], storage, k) + DocPair(last, storage, k);
      DirsConcat(DocEntries(docs[..n], storage, k), DocPair(last, storage, k), dir);
      PairDirs(last, storage, k, dir);
      assert docs == docs[..n] + [last];
      forall d ensures IsDocOf(k, docs, dir, d) <==> IsDocOf(k, docs[..n], dir, d) || (d == last && k.idText(last.id) == dir) {}
      assert k.idText(last.id) == dir ==> IsDocOf(k, docs, dir, last);
    }
  }

  lemma DirsConcat(a: seq<Entry>, b: seq<Entry>, dir: string)
    ensures dir in DocDirs(a + b) <==> dir in DocDirs(a) || dir in DocDirs(b)
  {
    if dir in DocDirs(a) {
      var i :| 0 <= i < |a| && DirOf(a[i].name) == Some(dir);
      assert (a + b)[i] == a[i];
    }
    if dir in DocDirs(b) {
      var i :| 0 <= i < |b| && DirOf(b[i].name) == Some(dir);
      assert (a + b)[|a| + i] == b[i];
    }
    if dir in DocDirs(a + b) {
      var i :| 0 <= i < |a + b| && DirOf((a + b)[i].name) == Some(dir);
      assert if i < |a| then a[i] == (a + b)[i] else b[i - |a|] == (a + b)[i];
    }
  }

  lemma PairDirs(d: Document, storage: map<FileKey, string>, k: Codec, dir: string)
    requires IdsOk(k)
    ensures dir in DocDirs(DocPair(d, storage, k)) <==> dir == k.idText(d.id)
  {
    DirOfDocPath(k.idText(d.id), META_NAME);
    DirOfDocPath(k.idText(d.id), d.title);
    assert DirOf(DocPair(d, storage, k)[0].name) == Some(k.idText(d.id));
  }

  lemma NotADocDir(name: string, dir: string)
    requires name != "" && name[0] != 'd'
    ensures DirOf(name).None?
  {
    assert DOCS_PREFIX[0] == 'd';
  }

  lemma HeaderDirs(kb: Kb, k: Codec, manifest: string, dir: string)
    ensures dir !in DocDirs(Header(kb, k, manifest))
  {
    var h := Header(kb, k, manifest);
    assert h[0].name[0] == 'm' && h[1].name[0] == 'c' && h[2].name[0] == 'f';
    forall i | 0 <= i < |h| ensures DirOf(h[i].name).None? { NotADocDir(h[i].name, dir); }
  }

  lemma ArchiveDirs(kb: Kb, storage: map<FileKey, string>, k: Codec, manifest: string, dir: string)
    requires IdsOk(k)
    ensures dir in DocDirs(ArchiveOf(kb, storage, k, manifest)) <==> HasDoc(k, Exported(kb.docs), dir)
  {
    var h := Header(kb, k, manifest);
    var body := DocEntries(Exported(kb.docs), storage, k);
    var tail := [Entry(CHUNKS_NAME, Join("\n", Lines(kb.chunks, k)))];
    assert ArchiveOf(kb, storage, k, manifest) == h + body + tail;
    DirsConcat(h, body, dir);
    DirsConcat(h + body, tail, dir);
    EntriesDirs(Exported(kb.docs), storage, k, dir);
    HeaderDirs(kb, k, manifest, dir);
    assert CHUNKS_NAME[0] == 'c';
    NotADocDir(CHUNKS_NAME, dir);
    assert dir !in DocDirs(tail);
    var a := ArchiveOf(kb, storage, k, manifest);
    assert a == (h + body) + tail;
    assert dir in DocDirs(a) <==> dir in DocDirs(body);
  }

  function MovedDoc(k: Codec, d: Document, id: nat, kbId: nat, fmap: map<string, nat>, stored: bool): Document {
    Document(id, d.title, d.sourceType, if stored then Some(FileKey(kbId, id, d.title)) else None,
             Mapped(MaybeText(k, d.folderId), fmap), d.fileSize, d.fileHash, d.chunkCount, d.tokenCount, false)
  }

  /** rows lists, in visiting order, the documents behind the directories. */
  ghost predicate RowsOf(k: Codec, rows: seq<Document>, docs: seq<Document>, order: seq<string>) {
    |rows| == |order| && forall i :: 0 <= i < |rows| ==> IsDocOf(k, docs, order[i], rows[i])
  }

  /** The state of the document loop after some directories: consecutive ids, every row moved, every file uploaded. */
  ghost predicate DocsMoved(k: Codec, st: DocState, rows: seq<Document>, kbId: nat, base: nat, fmap: map<string, nat>, storage: map<FileKey, string>) {
    && st.nextId == base + |rows|
    && ListMoved(k, st.docs, rows, kbId, base, fmap, storage)
    && IdsMoved(k, st.idMap, rows, base)
    && FilesMoved(st.files, rows, kbId, base, storage)
  }

  ghost predicate ListMoved(k: Codec, docs: seq<Document>, rows: seq<Document>, kbId: nat, base: nat, fmap: map<string, nat>, storage: map<FileKey, string>) {
    && |docs| == |rows|
    && forall i :: 0 <= i < |rows| ==> docs[i] == MovedDoc(k, rows[i], base + i, kbId, fmap, Stored(rows[i], storage).Some?)
  }

  lemma ListGrows(k: Codec, docs: seq<Document>, rows: seq<Document>, kbId: nat, base: nat, fmap: map<string, nat>, storage: map<FileKey, string>, d: Document)
    requires ListMoved(k, docs, rows, kbId, base, fmap, storage)
    ensures ListMoved(k, docs + [MovedDoc(k, d, base + |rows|, kbId, fmap, Stored(d, storage).Some?)], rows + [d], kbId, base, fmap, storage)
  {
  }

  ghost predicate IdsMoved(k: Codec, idMap: map<string, nat>, rows: seq<Document>, base: nat) {
    && (forall i :: 0 <= i < |rows| ==> k.idText(rows[i].id) in idMap && idMap[k.idText(rows[i].id)] == base + i)
    && (forall t :: t in idMap ==> exists i :: 0 <= i < |rows| && t == k.idText(rows[i].id))
  }

  ghost predicate FilesMoved(files: map<FileKey, string>, rows: seq<Document>, kbId: nat, base: nat, storage: map<FileKey, string>) {
    && (forall i :: 0 <= i < |rows| && Stored(rows[i], storage).Some? ==>
          var key := FileKey(kbId, base + i, rows[i].title);
          key in files && files[key] == Stored(rows[i], storage).value)
    && (forall key :: key in files ==> base <= key.docId < base + |rows|)
  }

  lemma IdMapGrows(k: Codec, idMap: map<string, nat>, rows: seq<Document>, base: nat, d: Document)
    requires IdsMoved(k, idMap, rows, base)
    requires forall i :: 0 <= i < |rows| ==> k.idText(rows[i].id) != k.idText(d.id)
    ensures IdsMoved(k, idMap[k.idText(d.id) := base + |rows|], rows + [d], base)
  {
    var m := idMap[k.idText(d.id) := base + |rows|];
    var rows' := rows + [d];
    assert forall i :: 0 <= i < |rows| ==> rows'[i] == rows[i];
    forall t | t in m ensures exists i :: 0 <= i < |rows'| && t == k.idText(rows'[i].id) {
      if t == k.idText(d.id) {
        assert t == k.idText(rows'[|rows|].id);
      } else {
        var i :| 0 <= i < |rows| && t == k.idText(rows[i].id);
        assert t == k.idText(rows'[i].id);
      }
    }
  }

  lemma FilesGrow(files: map<FileKey, string>, rows: seq<Document>, kbId: nat, base: nat, storage: map<FileKey, string>, d: Document)
    requires FilesMoved(files, rows, kbId, base, storage)
    ensures FilesMoved(if Stored(d, storage).Some? then files[FileKey(kbId, base + |rows|, d.title) := Stored(d, storage).value] else files,
                       rows + [d], kbId, base, storage)
  {
    assert forall i :: 0 <= i < |rows| ==> (rows + [d])[i] == rows[i];
  }

  function AfterDoc(k: Codec, st: DocState, d: Document, kbId: nat, fmap: map<string, nat>, file: Option<string>): DocState {
    DocState(st.docs + [MovedDoc(k, d, st.nextId, kbId, fmap, file.Some?)], st.idMap[k.idText(d.id) := st.nextId],
             if file.Some? then st.files[FileKey(kbId, st.nextId, d.title) := file.value] else st.files, st.nextId + 1)
  }

  lemma OneDocImports(kb: Kb, storage: map<FileKey, string>, k: Codec, manifest: string, kbId: nat, fmap: map<string, nat>,
                      st: DocState, d: Document)
    requires CodecOk(k) && DistinctDocs(Exported(kb.docs)) && d in Exported(kb.docs) && Harmless(k, fmap.Keys, storage, d)
    ensures ImportDoc(ArchiveOf(kb, storage, k, manifest), k, kbId, fmap, st, k.idText(d.id))
            == Ok(AfterDoc(k, st, d, kbId, fmap, Stored(d, storage)))
  {
    var a := ArchiveOf(kb, storage, k, manifest);
    ArchiveReads(kb, storage, k, manifest);
    assert DocReads(a, d, META_NAME, storage, k);
    assert DocReads(a, d, d.title, storage, k);
    assert k.loadDoc(k.dumpDoc(ToDocRec(k, d))) == Some(ToDocRec(k, d));
  }

  lemma OneDocMoves(k: Codec, st: DocState, rows: seq<Document>, kbId: nat, base: nat, fmap: map<string, nat>, storage: map<FileKey, string>, d: Document)
    requires DocsMoved(k, st, rows, kbId, base, fmap, storage)
    requires forall i :: 0 <= i < |rows| ==> k.idText(rows[i].id) != k.idText(d.id)
    ensures DocsMoved(k, AfterDoc(k, st, d, kbId, fmap, Stored(d, storage)), rows + [d], kbId, base, fmap, storage)
  {
    ListGrows(k, st.docs, rows, kbId, base, fmap, storage, d);
    IdMapGrows(k, st.idMap, rows, base, d);
    FilesGrow(st.files, rows, kbId, base, storage, d);
  }

  lemma {:induction false} DocsFold(kb: Kb, storage: map<FileKey, string>, k: Codec, manifest: string, kbId: nat, base: nat,
                                    fmap: map<string, nat>, order: seq<string>, rows: seq<Document>)
    requires CodecOk(k) && DistinctDocs(Exported(kb.docs)) && AllHarmless(k, fmap.Keys, storage, Exported(kb.docs))
    requires Distinct(order) && RowsOf(k, rows, Exported(kb.docs), order)
    ensures var r := ImportDocs(ArchiveOf(kb, storage, k, manifest), k, kbId, fmap, NoDocs(base), order);
            r.Ok? && DocsMoved(k, r.value, rows, kbId, base, fmap, storage)
  {
    if order != [] {
      var n := |order| - 1;
      DocsFold(kb, storage, k, manifest, kbId, base, fmap, order[..n], rows[..n]);
      var st := ImportDocs(ArchiveOf(kb, storage, k, manifest), k, kbId, fmap, NoDocs(base), order[..n]).value;
      assert IsDocOf(k, Exported(kb.docs), order[n], rows[n]);
      forall i | 0 <= i < n ensures k.idText(rows[..n][i].id) != k.idText(rows[n].id) {
        assert IsDocOf(k, Exported(kb.docs), order[i], rows[i]);
        assert order[i] != order[n];
      }
      OneDocImports(kb, storage, k, manifest, kbId, fmap, st, rows[n]);
      OneDocMoves(k, st, rows[..n], kbId, base, fmap, storage, rows[n]);
      assert rows == rows[..n] + [rows[n]];
    }
  }

  // --- Chunks ---

  function Kept(k: Codec, chunks: seq<Chunk>, dmap: map<string, nat>): seq<Chunk> {
    Filter((c: Chunk) => k.idText(c.unitId) in dmap, chunks)
  }

  /** Content, level, position and scores survive; the unit becomes a document and the review flag is not carried. */
  function MovedChunk(k: Codec, c: Chunk, id: nat, fmap: map<string, nat>, dmap: map<string, nat>): Chunk
    requires k.idText(c.unitId) in dmap
  {
    Chunk(id, "document", dmap[k.idText(c.unitId)], Mapped(MaybeText(k, c.folderId), fmap), c.content, c.level, c.position,
          c.tokenCount, c.qualityScore, c.metadata, false)
  }

  ghost predicate ChunksMoved(k: Codec, st: ChunkState, rows: seq<Chunk>, base: nat, fmap: map<string, nat>, dmap: map<string, nat>) {
    && st.nextId == base + |rows| && |st.chunks| == |rows|
    && forall i :: 0 <= i < |rows| ==> k.idText(rows[i].unitId) in dmap && st.chunks[i] == MovedChunk(k, rows[i], base + i, fmap, dmap)
  }

  lemma {:induction false} StripOneLine(s: string)
    requires s != "" && !IsSpace(s[0]) && !IsSpace(s[|s| - 1])
    ensures Strip(s) == s && Strip(s) != ""
  {
  }

  lemma OneLineImports(c: Chunk, k: Codec, st: ChunkState, rows: seq<Chunk>, base: nat, fmap: map<string, nat>, dmap: map<string, nat>)
    requires CodecOk(k) && ChunksMoved(k, st, rows, base, fmap, dmap)
    ensures var r := ImportLine(k, fmap, dmap, st, k.dumpChunk(ToChunkRec(k, c)));
            r.Ok? && ChunksMoved(k, r.value, rows + (if k.idText(c.unitId) in dmap then [c] else []), base, fmap, dmap)
  {
    var rec := ToChunkRec(k, c);
    assert OneLine(k.dumpChunk(rec)) && k.loadChunk(k.dumpChunk(rec)) == Some(rec);
    StripOneLine(k.dumpChunk(rec));
  }

  lemma {:induction false} LinesFold(chunks: seq<Chunk>, k: Codec, base: nat, fmap: map<string, nat>, dmap: map<string, nat>)
    requires CodecOk(k)
    ensures var r := ImportLines(k, fmap, dmap, ChunkState([], base), Lines(chunks, k));
            r.Ok? && ChunksMoved(k, r.value, Kept(k, chunks, dmap), base, fmap, dmap)
  {
    if chunks != [] {
      var n := |chunks| - 1;
      LinesFold(chunks[..n], k, base, fmap, dmap);
      assert Lines(chunks, k)[..n] == Lines(chunks[..n], k);
      OneLineImports(chunks[n], k, ImportLines(k, fmap, dmap, ChunkState([], base), Lines(chunks[..n], k)).value,
                     Kept(k, chunks[..n], dmap), base, fmap, dmap);
    }
  }

  lemma {:induction false} JoinEnds(parts: seq<string>)
    requires parts != [] && forall i :: 0 <= i < |parts| ==> OneLine(parts[i])
    ensures Join("\n", parts) != "" && parts[0] != "" && parts[|parts| - 1] != ""
    ensures Join("\n", parts)[0] == parts[0][0]
    ensures var s, last := Join("\n", parts), parts[|parts| - 1]; s[|s| - 1] == last[|last| - 1]
  {
    assert OneLine(parts[0]) && OneLine(parts[|parts| - 1]);
    if |parts| > 1 { JoinEnds(parts[..|parts| - 1]); }
  }

  lemma ChunkTextReadsBack(chunks: seq<Chunk>, k: Codec)
    requires CodecOk(k)
    ensures Split(Strip(Join("\n", Lines(chunks, k))), '\n') == if chunks == [] then [""] else Lines(chunks, k)
  {
    var lines := Lines(chunks, k);
    if chunks != [] {
      forall i | 0 <= i < |lines| ensures OneLine(lines[i]) {}
      JoinEnds(lines);
      StripOneLine(Join("\n", lines));
      SplitJoin(lines, '\n');
    }
  }

  lemma ChunksSurvive(kb: Kb, storage: map<FileKey, string>, k: Codec, manifest: string, base: nat, fmap: map<string, nat>, dmap: map<string, nat>)
    requires CodecOk(k)
    ensures var r := ImportLines(k, fmap, dmap, ChunkState([], base), ChunkLines(ArchiveOf(kb, storage, k, manifest), false));
            r.Ok? && ChunksMoved(k, r.value, Kept(k, kb.chunks, dmap), base, fmap, dmap)
  {
    ArchiveReads(kb, storage, k, manifest);
    ChunkTextReadsBack(kb.chunks, k);
    if kb.chunks == [] {
      assert [""][..0] == [];
      assert Strip("") == "";
    } else {
      LinesFold(kb.chunks, k, base, fmap, dmap);
    }
  }

  // --- The whole round trip ---

  ghost function DocIds(docs: seq<Document>): set<nat> {
    set d | d in docs :: d.id
  }

  ghost predicate WellFormed(kb: Kb) {
    DistinctFolders(kb.folders) && DistinctDocs(kb.docs)
  }

  lemma ExportedMeaning(docs: seq<Document>)
    ensures forall d :: d in Exported(docs) <==> d in docs && !d.isArchived
    ensures DistinctDocs(docs) ==> DistinctDocs(Exported(docs))
  {
    FilterMembers((d: Document) => !d.isArchived, docs);
    if DistinctDocs(docs) { FilterPairs((d: Document) => !d.isArchived, docs, (d: Document, e: Document) => d.id != e.id); }
  }

  /** Every folder, in order, under the image of its parent. */
  ghost predicate FoldersIso(k: Codec, source: seq<Folder>, copy: seq<Folder>, fmap: map<string, nat>) {
    && IsRenaming(k, fmap, FolderIds(source)) && |copy| == |source|
    && forall i :: 0 <= i < |source| ==> k.idText(source[i].id) in fmap && copy[i] == MovedFolder(k, source[i], fmap)
  }

  /** Every unarchived document once, in some order, with its file. */
  ghost predicate DocsIso(k: Codec, source: seq<Document>, storage: map<FileKey, string>, kbId: nat, copy: seq<Document>, files: map<FileKey, string>,
                          fmap: map<string, nat>, dmap: map<string, nat>, rows: seq<Document>) {
    && IsRenaming(k, dmap, DocIds(Exported(source)))
    && DistinctDocs(rows) && (forall d :: d in rows <==> d in source && !d.isArchived)
    && |copy| == |rows| == |dmap|
    && (forall i :: 0 <= i < |rows| ==>
          && k.idText(rows[i].id) in dmap
          && copy[i] == MovedDoc(k, rows[i], dmap[k.idText(rows[i].id)], kbId, fmap, Stored(rows[i], storage).Some?))
    && (forall i :: 0 <= i < |rows| && copy[i].filePath.Some? ==>
          copy[i].filePath.value in files && Stored(rows[i], storage) == Some(files[copy[i].filePath.value]))
  }

  /** The chunks of exported documents, in order, and no others. */
  ghost predicate ChunksIso(k: Codec, source: seq<Chunk>, copy: seq<Chunk>, fmap: map<string, nat>, dmap: map<string, nat>) {
    && |copy| == |Kept(k, source, dmap)|
    && forall i :: 0 <= i < |copy| ==>
         var c := Kept(k, source, dmap)[i];
         k.idText(c.unitId) in dmap && copy[i] == MovedChunk(k, c, copy[i].id, fmap, dmap)
  }

  /** The imported knowledge base is the exported part of the original under the import's own renamings, which are one-to-one. */
  ghost predicate Isomorphic(k: Codec, kb: Kb, storage: map<FileKey, string>, r: Imported, base: nat, rows: seq<Document>) {
    && r.kb.id == base && r.kb.config == kb.config && r.documentCount == |rows|
    && FoldersIso(k, kb.folders, r.kb.folders, r.folderIds)
    && DocsIso(k, kb.docs, storage, base, r.kb.docs, r.files, r.folderIds, r.docIds, rows)
    && ChunksIso(k, kb.chunks, r.kb.chunks, r.folderIds, r.docIds)
  }

  ghost predicate IsCopy(k: Codec, kb: Kb, storage: map<FileKey, string>, r: Imported, base: nat) {
    exists rows :: Isomorphic(k, kb, storage, r, base, rows)
  }

  lemma RowBehind(k: Codec, docs: seq<Document>, dir: string) returns (d: Document)
    requires HasDoc(k, docs, dir)
    ensures IsDocOf(k, docs, dir, d)
  {
    d :| IsDocOf(k, docs, dir, d);
  }

  lemma RowsBehind(k: Codec, docs: seq<Document>, order: seq<string>) returns (rows: seq<Document>)
    requires forall i :: 0 <= i < |order| ==> HasDoc(k, docs, order[i])
    ensures RowsOf(k, rows, docs, order)
  {
    if order == [] {
      rows := [];
    } else {
      var n := |order| - 1;
      var front := RowsBehind(k, docs, order[..n]);
      var d := RowBehind(k, docs, order[n]);
      rows := front + [d];
      forall i | 0 <= i < |rows| ensures IsDocOf(k, docs, order[i], rows[i]) {
        if i < n { assert IsDocOf(k, docs, order[..n][i], front[i]); }
      }
    }
  }

  /** The rows behind a duplicate-free enumeration of all directories are the exported documents, each once. */
  lemma RowsAreExported(k: Codec, docs: seq<Document>, order: seq<string>, rows: seq<Document>)
    requires IdsOk(k)
    requires DistinctDocs(docs) && Distinct(order) && RowsOf(k, rows, docs, order)
    requires forall dir :: dir in order <==> HasDoc(k, docs, dir)
    ensures DistinctDocs(rows) && forall d :: d in rows <==> d in docs
  {
    forall i, j | 0 <= i < j < |rows| ensures rows[i].id != rows[j].id {
      assert IsDocOf(k, docs, order[i], rows[i]) && IsDocOf(k, docs, order[j], rows[j]);
    }
    forall d | d in docs ensures d in rows {
      assert IsDocOf(k, docs, k.idText(d.id), d);
      assert HasDoc(k, docs, k.idText(d.id));
      var i :| 0 <= i < |order| && order[i] == k.idText(d.id);
      assert IsDocOf(k, docs, order[i], rows[i]);
      SameDoc(docs, rows[i], d);
    }
    forall d | d in rows ensures d in docs {
      var i :| 0 <= i < |rows| && rows[i] == d;
      assert IsDocOf(k, docs, order[i], rows[i]);
    }
  }

  lemma SameDoc(docs: seq<Document>, a: Document, b: Document)
    requires DistinctDocs(docs) && a in docs && b in docs && a.id == b.id
    ensures a == b
  {
    var i :| 0 <= i < |docs| && docs[i] == a;
    var j :| 0 <= j < |docs| && docs[j] == b;
    assert i == j;
  }

  lemma IdMapIsInjective(k: Codec, idMap: map<string, nat>, rows: seq<Document>, base: nat)
    requires IdsMoved(k, idMap, rows, base)
    ensures forall s, t :: s in idMap && t in idMap && s != t ==> idMap[s] != idMap[t]
  {
    forall s, t | s in idMap && t in idMap && s != t ensures idMap[s] != idMap[t] {
      var i :| 0 <= i < |rows| && s == k.idText(rows[i].id);
      var j :| 0 <= j < |rows| && t == k.idText(rows[j].id);
      assert i != j;
    }
  }

  lemma IdMapSize(k: Codec, idMap: map<string, nat>, rows: seq<Document>, base: nat)
    requires IdsOk(k)
    requires IdsMoved(k, idMap, rows, base) && DistinctDocs(rows)
    ensures |idMap| == |rows|
  {
    var keys := seq(|rows|, i requires 0 <= i < |rows| => k.idText(rows[i].id));
    forall i, j | 0 <= i < j < |keys| ensures keys[i] != keys[j] {}
    DistinctSize(keys);
    forall t | t in idMap ensures t in Elements(keys) {
      var i :| 0 <= i < |rows| && t == k.idText(rows[i].id);
      assert keys[i] == t;
    }
    assert Elements(keys) == idMap.Keys;
  }

  lemma IdMapIsRenaming(k: Codec, idMap: map<string, nat>, rows: seq<Document>, base: nat, ids: set<nat>)
    requires IdsMoved(k, idMap, rows, base) && ids == DocIds(rows)
    ensures IsRenaming(k, idMap, ids)
  {
    IdMapIsInjective(k, idMap, rows, base);
    forall t | t in idMap ensures t in Texts(k, ids) {
      var i :| 0 <= i < |rows| && t == k.idText(rows[i].id);
      assert rows[i].id in ids;
    }
    forall t | t in Texts(k, ids) ensures t in idMap {
      var id :| id in ids && t == k.idText(id);
      var d :| d in rows && d.id == id;
      var i :| 0 <= i < |rows| && rows[i] == d;
      assert k.idText(rows[i].id) in idMap;
    }
  }

  lemma FoldersMovedIso(k: Codec, folders: seq<Folder>, base: nat)
    requires CodecOk(k) && DistinctFolders(folders)
    ensures var recs := FolderRecs(k, folders);
            var fmap := FolderMap(recs, base);
            FoldersIso(k, folders, Relink(NewFolders(recs, base), recs, fmap), fmap)
  {
    FoldersSurvive(k, folders, base);
    FolderMapIsRenaming(k, folders, base);
  }

  /** Visiting any of the directories of an exported archive cannot fail. */
  lemma DocsSucceed(kb: Kb, storage: map<FileKey, string>, k: Codec, manifest: string, kbId: nat, base: nat, fmap: map<string, nat>, order: seq<string>)
    returns (ds: DocState, rows: seq<Document>)
    requires WellFormed(kb) && CodecOk(k) && AllHarmless(k, fmap.Keys, storage, Exported(kb.docs))
    requires Distinct(order) && Elements(order) <= DocDirs(ArchiveOf(kb, storage, k, manifest))
    ensures ImportDocs(ArchiveOf(kb, storage, k, manifest), k, kbId, fmap, NoDocs(base), order) == Ok(ds)
    ensures DocsMoved(k, ds, rows, kbId, base, fmap, storage) && RowsOf(k, rows, Exported(kb.docs), order)
  {
    var docs := Exported(kb.docs);
    ExportedMeaning(kb.docs);
    forall i | 0 <= i < |order| ensures HasDoc(k, docs, order[i]) {
      assert order[i] in Elements(order);
      ArchiveDirs(kb, storage, k, manifest, order[i]);
    }
    rows := RowsBehind(k, docs, order);
    DocsFold(kb, storage, k, manifest, kbId, base, fmap, order, rows);
    ds := ImportDocs(ArchiveOf(kb, storage, k, manifest), k, kbId, fmap, NoDocs(base), order).value;
  }

  lemma DocsSurvive(kb: Kb, storage: map<FileKey, string>, k: Codec, manifest: string, kbId: nat, base: nat, fmap: map<string, nat>, order: seq<string>)
    returns (ds: DocState, rows: seq<Document>)
    requires WellFormed(kb) && CodecOk(k) && AllHarmless(k, fmap.Keys, storage, Exported(kb.docs))
    requires Distinct(order) && Elements(order) == DocDirs(ArchiveOf(kb, storage, k, manifest))
    ensures ImportDocs(ArchiveOf(kb, storage, k, manifest), k, kbId, fmap, NoDocs(base), order) == Ok(ds)
    ensures DocsMoved(k, ds, rows, kbId, base, fmap, storage)
    ensures DistinctDocs(rows) && forall d :: d in rows <==> d in kb.docs && !d.isArchived
  {
    var docs := Exported(kb.docs);
    ExportedMeaning(kb.docs);
    forall dir ensures dir in order <==> HasDoc(k, docs, dir) {
      ArchiveDirs(kb, storage, k, manifest, dir);
      assert dir in order <==> dir in Elements(order);
    }
    ds, rows := DocsSucceed(kb, storage, k, manifest, kbId, base, fmap, order);
    RowsAreExported(k, docs, order, rows);
  }

  lemma DocsMovedIso(k: Codec, docs: seq<Document>, storage: map<FileKey, string>, ds: DocState, kbId: nat, base: nat, fmap: map<string, nat>, rows: seq<Document>)
    requires CodecOk(k) && DistinctDocs(docs)
    requires DocsMoved(k, ds, rows, kbId, base, fmap, storage)
    requires DistinctDocs(rows) && forall d :: d in rows <==> d in docs && !d.isArchived
    ensures DocsIso(k, docs, storage, kbId, ds.docs, ds.files, fmap, ds.idMap, rows)
  {
    ExportedMeaning(docs);
    assert DocIds(rows) == DocIds(Exported(docs));
    IdMapIsRenaming(k, ds.idMap, rows, base, DocIds(rows));
    IdMapSize(k, ds.idMap, rows, base);
    DocsKeepFiles(k, storage, ds, kbId, base, fmap, rows);
  }

  lemma DocsKeepFiles(k: Codec, storage: map<FileKey, string>, ds: DocState, kbId: nat, base: nat, fmap: map<string, nat>, rows: seq<Document>)
    requires DocsMoved(k, ds, rows, kbId, base, fmap, storage)
    ensures forall i :: 0 <= i < |rows| ==>
          && k.idText(rows[i].id) in ds.idMap
          && ds.docs[i] == MovedDoc(k, rows[i], ds.idMap[k.idText(rows[i].id)], kbId, fmap, Stored(rows[i], storage).Some?)
    ensures forall i :: 0 <= i < |rows| && ds.docs[i].filePath.Some? ==>
          ds.docs[i].filePath.value in ds.files && Stored(rows[i], storage) == Some(ds.files[ds.docs[i].filePath.value])
  {
    forall i | 0 <= i < |rows|
      ensures ds.docs[i].filePath.Some? ==>
                ds.docs[i].filePath.value in ds.files && Stored(rows[i], storage) == Some(ds.files[ds.docs[i].filePath.value])
    {
      assert ds.docs[i] == MovedDoc(k, rows[i], base + i, kbId, fmap, Stored(rows[i], storage).Some?);
    }
  }

  lemma RoundTripDocs(kb: Kb, storage: map<FileKey, string>, k: Codec, manifest: string, kbId: nat, base: nat, fmap: map<string, nat>, order: seq<string>)
    returns (ds: DocState, rows: seq<Document>)
    requires WellFormed(kb) && CodecOk(k) && AllHarmless(k, fmap.Keys, storage, Exported(kb.docs))
    requires Distinct(order) && Elements(order) == DocDirs(ArchiveOf(kb, storage, k, manifest))
    ensures ImportDocs(ArchiveOf(kb, storage, k, manifest), k, kbId, fmap, NoDocs(base), order) == Ok(ds)
    ensures DocsIso(k, kb.docs, storage, kbId, ds.docs, ds.files, fmap, ds.idMap, rows)
  {
    ds, rows := DocsSurvive(kb, storage, k, manifest, kbId, base, fmap, order);
    DocsMovedIso(k, kb.docs, storage, ds, kbId, base, fmap, rows);
  }

  lemma RoundTripChunks(kb: Kb, storage: map<FileKey, string>, k: Codec, manifest: string, base: nat, fmap: map<string, nat>, dmap: map<string, nat>)
    returns (cs: ChunkState)
    requires CodecOk(k)
    ensures ImportLines(k, fmap, dmap, ChunkState([], base), ChunkLines(ArchiveOf(kb, storage, k, manifest), false)) == Ok(cs)
    ensures ChunksIso(k, kb.chunks, cs.chunks, fmap, dmap)
  {
    ChunksSurvive(kb, storage, k, manifest, base, fmap, dmap);
    cs := ImportLines(k, fmap, dmap, ChunkState([], base), ChunkLines(ArchiveOf(kb, storage, k, manifest), false)).value;
  }

  lemma HeaderReadsBack(kb: Kb, storage: map<FileKey, string>, k: Codec, manifest: string)
    requires CodecOk(k)
    ensures var a := ArchiveOf(kb, storage, k, manifest);
            && HasEntry(a, CONFIG_NAME) && k.loadConfig(Read(a, CONFIG_NAME)) == Some(kb.config)
            && ReadFolders(a, k) == Some(FolderRecs(k, kb.folders))
  {
    ArchiveReads(kb, storage, k, manifest);
    assert k.loadFolders(k.dumpFolders(FolderRecs(k, kb.folders))) == Some(FolderRecs(k, kb.folders));
  }

  lemma ContentsAssemble(a: seq<Entry>, k: Codec, base: nat, order: seq<string>, config: Config, recs: seq<FolderRec>,
                         fmap: map<string, nat>, lines: seq<string>, ds: DocState, cs: ChunkState)
    requires ImportDocs(a, k, base, fmap, NoDocs(base + 1 + |recs|), order) == Ok(ds)
    requires ImportLines(k, fmap, ds.idMap, ChunkState([], ds.nextId), lines) == Ok(cs)
    ensures ImportContents(a, k, base, order, config, recs, fmap, lines) == Ok(Assemble(base, config, recs, ds, cs))
  {
  }

  /** Documents and chunks once imported, under the folders' renaming. */
  lemma AssembledIso(kb: Kb, storage: map<FileKey, string>, k: Codec, base: nat, ds: DocState, cs: ChunkState, rows: seq<Document>)
    requires WellFormed(kb) && CodecOk(k)
    requires DocsIso(k, kb.docs, storage, base, ds.docs, ds.files, FolderMap(FolderRecs(k, kb.folders), base + 1), ds.idMap, rows)
    requires ChunksIso(k, kb.chunks, cs.chunks, FolderMap(FolderRecs(k, kb.folders), base + 1), ds.idMap)
    ensures Isomorphic(k, kb, storage, Assemble(base, kb.config, FolderRecs(k, kb.folders), ds, cs), base, rows)
  {
    FoldersMovedIso(k, kb.folders, base + 1);
  }

  /** Export followed by import succeeds and gives a copy, whatever the orders, if no document titled meta.json does harm. */
  lemma RoundTrip(kb: Kb, storage: map<FileKey, string>, k: Codec, manifest: string, base: nat, order: seq<string>)
    returns (r: Imported)
    requires WellFormed(kb) && CodecOk(k) && AllHarmless(k, Texts(k, FolderIds(kb.folders)), storage, Exported(kb.docs))
    requires Distinct(order) && Elements(order) == DocDirs(ArchiveOf(kb, storage, k, manifest))
    ensures Import(ArchiveOf(kb, storage, k, manifest), k, base, false, order) == Ok(r)
    ensures IsCopy(k, kb, storage, r, base)
  {
    var a := ArchiveOf(kb, storage, k, manifest);
    var recs := FolderRecs(k, kb.folders);
    var fmap := FolderMap(recs, base + 1);
    FolderMapIsRenaming(k, kb.folders, base + 1);
    var ds, rows := RoundTripDocs(kb, storage, k, manifest, base, base + 1 + |recs|, fmap, order);
    var cs := RoundTripChunks(kb, storage, k, manifest, ds.nextId, fmap, ds.idMap);
    r := Assemble(base, kb.config, recs, ds, cs);
    ContentsAssemble(a, k, base, order, kb.config, recs, fmap, ChunkLines(a, false), ds, cs);
    ImportReadsHeader(kb, storage, k, manifest, base, order);
    AssembledIso(kb, storage, k, base, ds, cs, rows);
  }

  lemma {:induction false} ImportReadsHeader(kb: Kb, storage: map<FileKey, string>, k: Codec, manifest: string, base: nat, order: seq<string>)
    requires CodecOk(k)
    ensures var a := ArchiveOf(kb, storage, k, manifest);
            var recs := FolderRecs(k, kb.folders);
            Import(a, k, base, false, order) ==
              ImportContents(a, k, base, order, kb.config, recs, FolderMap(recs, base + 1), ChunkLines(a, false))
  {
    HeaderReadsBack(kb, storage, k, manifest);
  }
}
