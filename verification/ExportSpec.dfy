/** The .oka archive: what is written, what is read back, and how the two relate (app/knowledge/export_service.py). */
module ExportSpec {
  import opened Wrappers
  import opened Sequences
  import opened Text

  datatype FileKey = FileKey(kbId: nat, docId: nat, title: string)

  datatype Folder = Folder(id: nat, name: string, parent: Option<nat>, position: int)

  datatype Document = Document(
    id: nat, title: string, sourceType: string, filePath: Option<FileKey>, folderId: Option<nat>,
    fileSize: int, fileHash: string, chunkCount: int, tokenCount: int, isArchived: bool)

  /** A finite binary float: significand times two to the exponent. */
  datatype Float = Float(significand: int, exponent: int)

  datatype Chunk = Chunk(
    id: nat, unitType: string, unitId: nat, folderId: Option<nat>, content: string,
    level: int, position: int, tokenCount: int, qualityScore: Option<Float>, metadata: string, reviewExcluded: bool)

  datatype Config = Config(name: string, description: string, embeddingModelName: string, chunkingConfig: string, retrievalConfig: string)

  datatype Kb = Kb(id: nat, config: Config, folders: seq<Folder>, docs: seq<Document>, chunks: seq<Chunk>)

  // --- Archive records; ids are texts here ---

  datatype FolderRec = FolderRec(id: string, name: string, parentFolderId: Option<string>, position: int)

  datatype DocRec = DocRec(
    id: string, title: string, sourceType: string, folderId: Option<string>,
    fileSize: int, fileHash: string, chunkCount: int, tokenCount: int)

  datatype ChunkRec = ChunkRec(
    id: string, documentId: string, unitType: string, unitId: string, folderId: Option<string>, content: string,
    level: int, position: int, tokenCount: int, qualityScore: Option<Float>, metadata: string)

  datatype Entry = Entry(name: string, data: string)

  /** The text of an id and the JSON codec, one pair of functions per record. */
  datatype Codec = Codec(
    idText: nat -> string, parseId: string -> nat,
    dumpConfig: Config -> string, loadConfig: string -> Option<Config>,
    dumpFolders: seq<FolderRec> -> string, loadFolders: string -> Option<seq<FolderRec>>,
    dumpDoc: DocRec -> string, loadDoc: string -> Option<DocRec>,
    dumpChunk: ChunkRec -> string, loadChunk: string -> Option<ChunkRec>)

  ghost predicate IdsOk(k: Codec) {
    forall i :: k.parseId(k.idText(i)) == i && '/' !in k.idText(i)
  }

  /** Ids can be read back from their text, which has no slash; reading back what was written; and one line per record without blank ends. */
  ghost predicate CodecOk(k: Codec) {
    && IdsOk(k)
    && (forall c :: k.loadConfig(k.dumpConfig(c)) == Some(c))
    && (forall f :: k.loadFolders(k.dumpFolders(f)) == Some(f))
    && (forall d :: k.loadDoc(k.dumpDoc(d)) == Some(d))
    && (forall c :: k.loadChunk(k.dumpChunk(c)) == Some(c) && OneLine(k.dumpChunk(c)))
  }

  predicate OneLine(s: string) {
    s != "" && '\n' !in s && !IsSpace(s[0]) && !IsSpace(s[|s| - 1])
  }

  function MaybeText(k: Codec, id: Option<nat>): Option<string> {
    match id case None => None case Some(i) => Some(k.idText(i))
  }

  const CONFIG_NAME := "config.json"
  const FOLDERS_NAME := "folders.json"
  const CHUNKS_NAME := "chunks.jsonl"
  const DOCS_PREFIX := "documents/"
  const META_NAME := "meta.json"

  function DocPath(dir: string, name: string): string {
    DOCS_PREFIX + dir + "/" + name
  }

  // --- Export ---

  function ToFolderRec(k: Codec, f: Folder): FolderRec {
    FolderRec(k.idText(f.id), f.name, MaybeText(k, f.parent), f.position)
  }

  function FolderRecs(k: Codec, folders: seq<Folder>): (r: seq<FolderRec>)
    ensures |r| == |folders| && forall i :: 0 <= i < |folders| ==> r[i] == ToFolderRec(k, folders[i])
  {
    seq(|folders|, i requires 0 <= i < |folders| => ToFolderRec(k, folders[i]))
  }

  function ToDocRec(k: Codec, d: Document): DocRec {
    DocRec(k.idText(d.id), d.title, d.sourceType, MaybeText(k, d.folderId), d.fileSize, d.fileHash, d.chunkCount, d.tokenCount)
  }

  function ToChunkRec(k: Codec, c: Chunk): ChunkRec {
    ChunkRec(k.idText(c.id), k.idText(c.unitId), c.unitType, k.idText(c.unitId), MaybeText(k, c.folderId), c.content,
             c.level, c.position, c.tokenCount, c.qualityScore, c.metadata)
  }

  function Exported(docs: seq<Document>): seq<Document> {
    Filter((d: Document) => !d.isArchived, docs)
  }

  function Stored(d: Document, storage: map<FileKey, string>): Option<string> {
    if d.filePath.Some? && d.filePath.value in storage then Some(storage[d.filePath.value]) else None
  }

  function DocEntries(docs: seq<Document>, storage: map<FileKey, string>, k: Codec): seq<Entry> {
    if docs == [] then []
    else
      var d := docs[|docs| - 1];
      DocEntries(docs[..|docs| - 1], storage, k)
      + [Entry(DocPath(k.idText(d.id), META_NAME), k.dumpDoc(ToDocRec(k, d)))]
      + (match Stored(d, storage) case None => [] case Some(data) => [Entry(DocPath(k.idText(d.id), d.title), data)])
  }

  function Lines(chunks: seq<Chunk>, k: Codec): (r: seq<string>)
    ensures |r| == |chunks| && forall i :: 0 <= i < |chunks| ==> r[i] == k.dumpChunk(ToChunkRec(k, chunks[i]))
  {
    seq(|chunks|, i requires 0 <= i < |chunks| => k.dumpChunk(ToChunkRec(k, chunks[i])))
  }

  function ArchiveOf(kb: Kb, storage: map<FileKey, string>, k: Codec, manifest: string): seq<Entry> {
    [Entry("manifest.json", manifest), Entry(CONFIG_NAME, k.dumpConfig(kb.config)),
     Entry(FOLDERS_NAME, k.dumpFolders(FolderRecs(k, kb.folders)))]
    + DocEntries(Exported(kb.docs), storage, k)
    + [Entry(CHUNKS_NAME, Join("\n", Lines(kb.chunks, k)))]
  }

  // --- Reading an archive ---

  predicate HasEntry(a: seq<Entry>, name: string) {
    exists i :: 0 <= i < |a| && a[i].name == name
  }

  /** A zip file may hold several entries of one name; reading returns the last. */
  function Read(a: seq<Entry>, name: string): string {
    if a == [] then ""
    else if a[|a| - 1].name == name then a[|a| - 1].data
    else Read(a[..|a| - 1], name)
  }

  function SlashAt(s: string): (i: nat)
    ensures i <= |s| && '/' !in s[..i] && (i < |s| ==> s[i] == '/')
  {
    if s == "" || s[0] == '/' then 0
    else
      var i := SlashAt(s[1..]);
      assert s[..i + 1] == [s[0]] + s[1..][..i];
      i + 1
  }

  /** The second path component of names below documents/ that have a third one. */
  function DirOf(name: string): Option<string> {
    if DOCS_PREFIX <= name && SlashAt(name[|DOCS_PREFIX|..]) < |name| - |DOCS_PREFIX| then
      Some(name[|DOCS_PREFIX|..][..SlashAt(name[|DOCS_PREFIX|..])])
    else None
  }

  function DocDirs(a: seq<Entry>): set<string> {
    set i | 0 <= i < |a| && DirOf(a[i].name).Some? :: DirOf(a[i].name).value
  }

  // --- Import ---

  datatype ImportError = MissingEntry(name: string) | BadJson

  datatype DocState = DocState(docs: seq<Document>, idMap: map<string, nat>, files: map<FileKey, string>, nextId: nat)

  /** The new knowledge base with its files, and the import's two dictionaries from old id texts to new ids. */
  datatype Imported = Imported(kb: Kb, files: map<FileKey, string>, documentCount: nat, nextId: nat,
                               folderIds: map<string, nat>, docIds: map<string, nat>)

  /** Old folder id to new one; folders get consecutive fresh ids. */
  function FolderMap(recs: seq<FolderRec>, base: nat): map<string, nat> {
    if recs == [] then map[]
    else FolderMap(recs[..|recs| - 1], base)[recs[|recs| - 1].id := base + |recs| - 1]
  }

  function NewFolders(recs: seq<FolderRec>, base: nat): (r: seq<Folder>)
    ensures |r| == |recs| && forall i :: 0 <= i < |recs| ==> r[i] == Folder(base + i, recs[i].name, None, recs[i].position)
  {
    seq(|recs|, i requires 0 <= i < |recs| => Folder(base + i, recs[i].name, None, recs[i].position))
  }

  function SetParent(folders: seq<Folder>, id: nat, parent: nat): (r: seq<Folder>)
    ensures |r| == |folders|
    ensures forall i :: 0 <= i < |folders| ==> r[i] == if folders[i].id == id then folders[i].(parent := Some(parent)) else folders[i]
  {
    seq(|folders|, i requires 0 <= i < |folders| => if folders[i].id == id then folders[i].(parent := Some(parent)) else folders[i])
  }

  /** The second pass: parents can be set once every folder has its new id. */
  function Relink(folders: seq<Folder>, recs: seq<FolderRec>, fmap: map<string, nat>): seq<Folder> {
    if recs == [] then folders
    else
      var rec := recs[|recs| - 1];
      var before := Relink(folders, recs[..|recs| - 1], fmap);
      if rec.parentFolderId.Some? && rec.parentFolderId.value in fmap && rec.id in fmap
      then SetParent(before, fmap[rec.id], fmap[rec.parentFolderId.value])
      else before
  }

  function Mapped(id: Option<string>, m: map<string, nat>): Option<nat> {
    if id.Some? && id.value in m then Some(m[id.value]) else None
  }

  /** The row that a metadata record becomes; its file is the entry beside it that has the title's name. */
  function DocFrom(a: seq<Entry>, kbId: nat, fmap: map<string, nat>, id: nat, dir: string, meta: DocRec): Document {
    Document(id, meta.title, meta.sourceType, if HasEntry(a, DocPath(dir, meta.title)) then Some(FileKey(kbId, id, meta.title)) else None,
             Mapped(meta.folderId, fmap), meta.fileSize, meta.fileHash, meta.chunkCount, meta.tokenCount, false)
  }

  function AfterRecord(a: seq<Entry>, kbId: nat, fmap: map<string, nat>, st: DocState, dir: string, meta: DocRec): DocState {
    var doc := DocFrom(a, kbId, fmap, st.nextId, dir, meta);
    DocState(st.docs + [doc], st.idMap[meta.id := st.nextId],
             if doc.filePath.Some? then st.files[doc.filePath.value := Read(a, DocPath(dir, meta.title))] else st.files,
             st.nextId + 1)
  }

  function ImportDoc(a: seq<Entry>, k: Codec, kbId: nat, fmap: map<string, nat>, st: DocState, dir: string): Result<DocState, ImportError> {
    if !HasEntry(a, DocPath(dir, META_NAME)) then Ok(st)
    else match k.loadDoc(Read(a, DocPath(dir, META_NAME)))
      case None => Err(BadJson)
      case Some(meta) =>
        Ok(AfterRecord(a, kbId, fmap, st, dir, meta))
  }

  function ImportDocs(a: seq<Entry>, k: Codec, kbId: nat, fmap: map<string, nat>, st: DocState, order: seq<string>): Result<DocState, ImportError> {
    if order == [] then Ok(st)
    else match ImportDocs(a, k, kbId, fmap, st, order[..|order| - 1])
      case Err(e) => Err(e)
      case Ok(st') => ImportDoc(a, k, kbId, fmap, st', order[|order| - 1])
  }

  datatype ChunkState = ChunkState(chunks: seq<Chunk>, nextId: nat)

  function ImportLine(k: Codec, fmap: map<string, nat>, dmap: map<string, nat>, st: ChunkState, line: string): Result<ChunkState, ImportError> {
    if Strip(line) == "" then Ok(st)
    else match k.loadChunk(line)
      case None => Err(BadJson)
      case Some(cd) =>
        if cd.documentId !in dmap then Ok(st)
        else
          var c := Chunk(st.nextId, "document", dmap[cd.documentId], Mapped(cd.folderId, fmap), cd.content, cd.level, cd.position,
                         cd.tokenCount, cd.qualityScore, cd.metadata, false);
          Ok(ChunkState(st.chunks + [c], st.nextId + 1))
  }

  function ImportLines(k: Codec, fmap: map<string, nat>, dmap: map<string, nat>, st: ChunkState, lines: seq<string>): Result<ChunkState, ImportError> {
    if lines == [] then Ok(st)
    else match ImportLines(k, fmap, dmap, st, lines[..|lines| - 1])
      case Err(e) => Err(e)
      case Ok(st') => ImportLine(k, fmap, dmap, st', lines[|lines| - 1])
  }

  function ChunkLines(a: seq<Entry>, reChunk: bool): seq<string> {
    if !reChunk && HasEntry(a, CHUNKS_NAME) then Split(Strip(Read(a, CHUNKS_NAME)), '\n') else []
  }

  function ReadFolders(a: seq<Entry>, k: Codec): Option<seq<FolderRec>> {
    if HasEntry(a, FOLDERS_NAME) then k.loadFolders(Read(a, FOLDERS_NAME)) else Some([])
  }

  function Assemble(base: nat, config: Config, recs: seq<FolderRec>, ds: DocState, cs: ChunkState): Imported {
    var folders := Relink(NewFolders(recs, base + 1), recs, FolderMap(recs, base + 1));
    Imported(Kb(base, config, folders, ds.docs, cs.chunks), ds.files, |ds.idMap|, cs.nextId, FolderMap(recs, base + 1), ds.idMap)
  }

  function NoDocs(nextId: nat): DocState {
    DocState([], map[], map[], nextId)
  }

  /** Documents and chunks, once the configuration and the folders are known. */
  function ImportContents(a: seq<Entry>, k: Codec, base: nat, order: seq<string>, config: Config, recs: seq<FolderRec>,
                          fmap: map<string, nat>, lines: seq<string>): Result<Imported, ImportError> {
    match ImportDocs(a, k, base, fmap, NoDocs(base + 1 + |recs|), order)
    case Err(e) => Err(e)
    case Ok(ds) =>
      match ImportLines(k, fmap, ds.idMap, ChunkState([], ds.nextId), lines)
      case Err(e) => Err(e)
      case Ok(cs) => Ok(Assemble(base, config, recs, ds, cs))
  }

  /** The imported knowledge base when the document directories are visited in the given order. */
  function Import(a: seq<Entry>, k: Codec, base: nat, reChunk: bool, order: seq<string>): Result<Imported, ImportError> {
    if !HasEntry(a, CONFIG_NAME) then Err(MissingEntry(CONFIG_NAME))
    else match (k.loadConfig(Read(a, CONFIG_NAME)), ReadFolders(a, k))
      case (Some(config), Some(recs)) =>
        ImportContents(a, k, base, order, config, recs, FolderMap(recs, base + 1), ChunkLines(a, reChunk))
      case _ => Err(BadJson)
  }
}
