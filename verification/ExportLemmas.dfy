/** Facts about archive names, reading and the import folds, leading to the round trip. */
module ExportLemmas {
  import opened Wrappers
  import opened Sequences
  import opened Text
  import opened ExportSpec

  // --- Names ---

  lemma {:induction false} SlashAfter(dir: string, rest: string)
    requires '/' !in dir
    ensures SlashAt(dir + "/" + rest) == |dir|
  {
    var s := dir + "/" + rest;
    if dir == "" {
      assert s[0] == '/';
    } else {
      assert dir[0] in dir && s[0] == dir[0];
      assert s[1..] == dir[1..] + "/" + rest;
      SlashAfter(dir[1..], rest);
    }
  }

  lemma DirOfDocPath(dir: string, name: string)
    requires '/' !in dir
    ensures DirOf(DocPath(dir, name)) == Some(dir)
  {
    var p := DocPath(dir, name);
    assert p[|DOCS_PREFIX|..] == dir + "/" + name;
    SlashAfter(dir, name);
    assert DOCS_PREFIX <= p;
    assert (dir + "/" + name)[..|dir|] == dir;
  }

  lemma DocPathInjective(d1: string, n1: string, d2: string, n2: string)
    requires '/' !in d1 && '/' !in d2 && DocPath(d1, n1) == DocPath(d2, n2)
    ensures d1 == d2 && n1 == n2
  {
    DirOfDocPath(d1, n1);
    DirOfDocPath(d2, n2);
    assert DocPath(d1, n1)[|DOCS_PREFIX| + |d1| + 1..] == n1;
    assert DocPath(d2, n2)[|DOCS_PREFIX| + |d2| + 1..] == n2;
  }

  // --- Reading ---

  lemma {:induction false} ReadConcat(a: seq<Entry>, b: seq<Entry>, name: string)
    ensures HasEntry(a + b, name) <==> HasEntry(a, name) || HasEntry(b, name)
    ensures Read(a + b, name) == if HasEntry(b, name) then Read(b, name) else Read(a, name)
  {
    if b == [] {
      assert a + b == a;
    } else {
      var n := |b| - 1;
      assert (a + b)[..|a + b| - 1] == a + b[..n];
      ReadConcat(a, b[..n], name);
      HasLast(b, name);
      HasLast(a + b, name);
    }
  }

  lemma HasLast(a: seq<Entry>, name: string)
    requires a != []
    ensures HasEntry(a, name) <==> HasEntry(a[..|a| - 1], name) || a[|a| - 1].name == name
  {
    if HasEntry(a[..|a| - 1], name) {
      var i :| 0 <= i < |a| - 1 && a[..|a| - 1][i].name == name;
      assert a[i].name == name;
    }
    if HasEntry(a, name) {
      var i :| 0 <= i < |a| && a[i].name == name;
      assert i < |a| - 1 ==> a[..|a| - 1][i].name == name;
    }
  }

  lemma ReadOne(e: Entry, name: string)
    ensures HasEntry([e], name) <==> e.name == name
    ensures e.name == name ==> Read([e], name) == e.data
  {
    if e.name == name { assert [e][0].name == name; }
  }

  function DocPair(d: Document, storage: map<FileKey, string>, k: Codec): seq<Entry> {
    [Entry(DocPath(k.idText(d.id), META_NAME), k.dumpDoc(ToDocRec(k, d)))]
    + (match Stored(d, storage) case None => [] case Some(data) => [Entry(DocPath(k.idText(d.id), d.title), data)])
  }

  /** What reading a path below a document's directory yields. */
  ghost predicate DocReads(a: seq<Entry>, d: Document, name: string, storage: map<FileKey, string>, k: Codec) {
    var p := DocPath(k.idText(d.id), name);
    match Stored(d, storage)
    case Some(data) =>
      && (HasEntry(a, p) <==> name == META_NAME || name == d.title)
      && (name == d.title ==> Read(a, p) == data)
      && (name == META_NAME && d.title != META_NAME ==> Read(a, p) == k.dumpDoc(ToDocRec(k, d)))
    case None =>
      && (HasEntry(a, p) <==> name == META_NAME)
      && (name == META_NAME ==> Read(a, p) == k.dumpDoc(ToDocRec(k, d)))
  }

  lemma PairReads(d: Document, name: string, storage: map<FileKey, string>, k: Codec)
    requires IdsOk(k)
    ensures DocReads(DocPair(d, storage, k), d, name, storage, k)
  {
    var id := k.idText(d.id);
    var p := DocPath(id, name);
    var meta := Entry(DocPath(id, META_NAME), k.dumpDoc(ToDocRec(k, d)));
    if p == DocPath(id, META_NAME) { DocPathInjective(id, name, id, META_NAME); }
    ReadOne(meta, p);
    match Stored(d, storage) {
      case Some(data) =>
        var file := Entry(DocPath(id, d.title), data);
        if p == DocPath(id, d.title) { DocPathInjective(id, name, id, d.title); }
        ReadOne(file, p);
        ReadConcat([meta], [file], p);
      case None =>
        assert [meta] + [] == [meta];
    }
  }

  lemma PairIsElsewhere(d: Document, other: nat, name: string, storage: map<FileKey, string>, k: Codec)
    requires IdsOk(k)
    requires d.id != other
    ensures !HasEntry(DocPair(d, storage, k), DocPath(k.idText(other), name))
  {
    if HasEntry(DocPair(d, storage, k), DocPath(k.idText(other), name)) {
      var i :| 0 <= i < |DocPair(d, storage, k)| && DocPair(d, storage, k)[i].name == DocPath(k.idText(other), name);
      DocPathInjective(k.idText(d.id), if i == 0 then META_NAME else d.title, k.idText(other), name);
    }
  }

  ghost predicate DistinctDocs(docs: seq<Document>) {
    forall i, j :: 0 <= i < j < |docs| ==> docs[i].id != docs[j].id
  }

  lemma {:induction false} EntriesRead(docs: seq<Document>, d: Document, name: string, storage: map<FileKey, string>, k: Codec)
    requires IdsOk(k)
    requires DistinctDocs(docs) && d in docs
    ensures DocReads(DocEntries(docs, storage, k), d, name, storage, k)
  {
    var n := |docs| - 1;
    var last := docs[n];
    var front := DocEntries(docs[..n], storage, k);
    assert DocEntries(docs, storage, k) == front + DocPair(last, storage, k);
    var p := DocPath(k.idText(d.id), name);
    ReadConcat(front, DocPair(last, storage, k), p);
    var i :| 0 <= i < |docs| && docs[i] == d;
    if i == n {
      PairReads(last, name, storage, k);
      EntriesElsewhere(docs[..n], d.id, name, storage, k);
    } else {
      assert docs[..n][i] == d;
      EntriesRead(docs[..n], d, name, storage, k);
      PairIsElsewhere(last, d.id, name, storage, k);
    }
  }

  lemma {:induction false} EntriesElsewhere(docs: seq<Document>, other: nat, name: string, storage: map<FileKey, string>, k: Codec)
    requires IdsOk(k)
    requires forall i :: 0 <= i < |docs| ==> docs[i].id != other
    ensures !HasEntry(DocEntries(docs, storage, k), DocPath(k.idText(other), name))
  {
    if docs != [] {
      var n := |docs| - 1;
      EntriesElsewhere(docs[..n], other, name, storage, k);
      PairIsElsewhere(docs[n], other, name, storage, k);
      assert DocEntries(docs, storage, k) == DocEntries(docs[..n], storage, k) + DocPair(docs[n], storage, k);
      ReadConcat(DocEntries(docs[..n], storage, k), DocPair(docs[n], storage, k), DocPath(k.idText(other), name));
    }
  }

  predicate InDocs(name: string) {
    DOCS_PREFIX <= name
  }

  lemma {:induction false} EntriesAreInDocs(docs: seq<Document>, storage: map<FileKey, string>, k: Codec)
    ensures forall i :: 0 <= i < |DocEntries(docs, storage, k)| ==> InDocs(DocEntries(docs, storage, k)[i].name)
  {
    if docs != [] {
      var n := |docs| - 1;
      EntriesAreInDocs(docs[..n], storage, k);
      assert DocEntries(docs, storage, k) == DocEntries(docs[..n], storage, k) + DocPair(docs[n], storage, k);
      var id := k.idText(docs[n].id);
      assert InDocs(DocPath(id, META_NAME)) && InDocs(DocPath(id, docs[n].title));
    }
  }

  function Header(kb: Kb, k: Codec, manifest: string): seq<Entry> {
    [Entry("manifest.json", manifest), Entry(CONFIG_NAME, k.dumpConfig(kb.config)),
     Entry(FOLDERS_NAME, k.dumpFolders(FolderRecs(k, kb.folders)))]
  }

  lemma HeaderReads(kb: Kb, k: Codec, manifest: string)
    ensures HasEntry(Header(kb, k, manifest), CONFIG_NAME) && Read(Header(kb, k, manifest), CONFIG_NAME) == k.dumpConfig(kb.config)
    ensures HasEntry(Header(kb, k, manifest), FOLDERS_NAME)
    ensures Read(Header(kb, k, manifest), FOLDERS_NAME) == k.dumpFolders(FolderRecs(k, kb.folders))
    ensures forall name :: InDocs(name) ==> !HasEntry(Header(kb, k, manifest), name)
  {
    var h := Header(kb, k, manifest);
    assert h[1].name == CONFIG_NAME && h[2].name == FOLDERS_NAME && h[0].name[0] == 'm';
    assert h[..2][1].name == CONFIG_NAME && |h[..2]| == 2 && h[..|h| - 1] == h[..2];
    assert CONFIG_NAME[0] == 'c' && FOLDERS_NAME[0] == 'f' && DOCS_PREFIX[0] == 'd';
    assert Read(h, CONFIG_NAME) == Read(h[..2], CONFIG_NAME);
  }

  /** The archive as a whole. */
  lemma ArchiveReads(kb: Kb, storage: map<FileKey, string>, k: Codec, manifest: string)
    requires IdsOk(k)
    ensures var a := ArchiveOf(kb, storage, k, manifest);
            && HasEntry(a, CONFIG_NAME) && Read(a, CONFIG_NAME) == k.dumpConfig(kb.config)
            && HasEntry(a, FOLDERS_NAME) && Read(a, FOLDERS_NAME) == k.dumpFolders(FolderRecs(k, kb.folders))
            && HasEntry(a, CHUNKS_NAME) && Read(a, CHUNKS_NAME) == Join("\n", Lines(kb.chunks, k))
    ensures DistinctDocs(Exported(kb.docs)) ==>
              forall d, name :: d in Exported(kb.docs) ==> DocReads(ArchiveOf(kb, storage, k, manifest), d, name, storage, k)
  {
    var a := ArchiveOf(kb, storage, k, manifest);
    var h := Header(kb, k, manifest);
    var body := DocEntries(Exported(kb.docs), storage, k);
    var tail := Entry(CHUNKS_NAME, Join("\n", Lines(kb.chunks, k)));
    assert a == h + body + [tail];
    HeaderReads(kb, k, manifest);
    EntriesAreInDocs(Exported(kb.docs), storage, k);
    assert DOCS_PREFIX[0] == 'd' && CONFIG_NAME[0] == 'c' && FOLDERS_NAME[0] == 'f' && CHUNKS_NAME[0] == 'c';
    assert CHUNKS_NAME[1] == 'h' && CONFIG_NAME[1] == 'o';
    forall name ensures HasEntry(a, name) <==> HasEntry(h, name) || HasEntry(body, name) || name == CHUNKS_NAME
      ensures Read(a, name) == if name == CHUNKS_NAME then tail.data else if HasEntry(body, name) then Read(body, name) else Read(h, name)
    {
      ReadConcat(h, body, name);
      ReadOne(tail, name);
      ReadConcat(h + body, [tail], name);
    }
    assert !HasEntry(body, CONFIG_NAME) && !HasEntry(body, FOLDERS_NAME);
    if DistinctDocs(Exported(kb.docs)) {
      forall d, name | d in Exported(kb.docs) ensures DocReads(a, d, name, storage, k) {
        var p := DocPath(k.idText(d.id), name);
        assert InDocs(p);
        EntriesRead(Exported(kb.docs), d, name, storage, k);
      }
    }
  }
}
