/** A codec that keeps every law the round trip relies on: each record becomes one line of digits, commas and semicolons. */
module ExportCodec {
  import opened Wrappers
  import opened Text
  import opened ExportSpec

  // --- Lists of texts as one line ---

  /** The characters' codes behind a leading zero, so that the empty text has a code too. */
  function Codes(s: string): (r: seq<string>)
    ensures |r| == |s| + 1 && r[0] == "0"
    ensures forall i :: 0 <= i < |s| ==> r[i + 1] == Decimal(s[i] as int)
  {
    ["0"] + seq(|s|, i requires 0 <= i < |s| => Decimal(s[i] as int))
  }

  function Field(s: string): string {
    Join(",", Codes(s))
  }

  function Fields(texts: seq<string>): (r: seq<string>)
    ensures |r| == |texts| && forall i :: 0 <= i < |texts| ==> r[i] == Field(texts[i])
  {
    seq(|texts|, i requires 0 <= i < |texts| => Field(texts[i]))
  }

  function Row(texts: seq<string>): string {
    Join(";", Fields(texts))
  }

  predicate Plain(s: string) {
    forall i :: 0 <= i < |s| ==> IsDigit(s[i]) || s[i] == ',' || s[i] == ';'
  }

  lemma {:induction false} JoinIsPlain(sep: string, parts: seq<string>)
    requires Plain(sep) && parts != [] && forall i :: 0 <= i < |parts| ==> Plain(parts[i]) && parts[i] != ""
    ensures Plain(Join(sep, parts)) && Join(sep, parts) != ""
  {
    if |parts| > 1 { JoinIsPlain(sep, parts[..|parts| - 1]); }
  }

  lemma {:induction false} JoinLacks(c: char, sep: string, parts: seq<string>)
    requires c !in sep && forall i :: 0 <= i < |parts| ==> c !in parts[i]
    ensures c !in Join(sep, parts)
  {
    if |parts| > 1 { JoinLacks(c, sep, parts[..|parts| - 1]); }
  }

  lemma FieldFacts(s: string)
    ensures Plain(Field(s)) && Field(s) != "" && ';' !in Field(s)
    ensures Split(Field(s), ',') == Codes(s)
  {
    var codes := Codes(s);
    forall i | 0 <= i < |codes| ensures Plain(codes[i]) && codes[i] != "" && ';' !in codes[i] && ',' !in codes[i] {
      assert codes[i] == if i == 0 then "0" else Decimal(s[i - 1] as int);
      assert AllDigits(codes[i]);
    }
    JoinIsPlain(",", codes);
    JoinLacks(';', ",", codes);
    SplitJoin(codes, ',');
  }

  lemma FieldIsInjective(s: string, t: string)
    requires Field(s) == Field(t)
    ensures s == t
  {
    FieldFacts(s);
    FieldFacts(t);
    assert Codes(s) == Codes(t);
    forall i | 0 <= i < |s| ensures s[i] == t[i] {
      assert Codes(s)[i + 1] == Codes(t)[i + 1];
      assert Value(Decimal(s[i] as int)) == Value(Decimal(t[i] as int));
    }
  }

  lemma RowFacts(texts: seq<string>)
    requires texts != []
    ensures Plain(Row(texts)) && Row(texts) != "" && Split(Row(texts), ';') == Fields(texts)
  {
    forall i | 0 <= i < |texts| ensures Plain(Fields(texts)[i]) && Fields(texts)[i] != "" && ';' !in Fields(texts)[i] {
      FieldFacts(texts[i]);
    }
    JoinIsPlain(";", Fields(texts));
    SplitJoin(Fields(texts), ';');
  }

  lemma RowIsInjective(a: seq<string>, b: seq<string>)
    requires a != [] && b != [] && Row(a) == Row(b)
    ensures a == b
  {
    RowFacts(a);
    RowFacts(b);
    assert Fields(a) == Fields(b);
    forall i | 0 <= i < |a| ensures a[i] == b[i] {
      assert Fields(a)[i] == Fields(b)[i];
      FieldIsInjective(a[i], b[i]);
    }
  }

  // --- Records as lists of texts ---

  function Whole(n: int): string {
    if n < 0 then "-" + Decimal(-n) else Decimal(n)
  }

  lemma WholeIsInjective(m: int, n: int)
    requires Whole(m) == Whole(n)
    ensures m == n
  {
    assert m >= 0 ==> Whole(m)[0] != '-' by {
      if m >= 0 { assert IsDigit(Decimal(m)[0]); }
    }
    assert n >= 0 ==> Whole(n)[0] != '-' by {
      if n >= 0 { assert IsDigit(Decimal(n)[0]); }
    }
    if m < 0 {
      assert Whole(m)[1..] == Decimal(-m) && Whole(n)[1..] == Decimal(-n);
      assert Value(Decimal(-m)) == Value(Decimal(-n));
    } else {
      assert Value(Decimal(m)) == Value(Decimal(n));
    }
  }

  function Maybe(t: Option<string>): seq<string> {
    match t case None => ["n", ""] case Some(s) => ["s", s]
  }

  function MaybeFloat(f: Option<Float>): seq<string> {
    match f case None => ["n", "", ""] case Some(x) => ["s", Whole(x.significand), Whole(x.exponent)]
  }

  function ConfigTexts(c: Config): seq<string> {
    [c.name, c.description, c.embeddingModelName, c.chunkingConfig, c.retrievalConfig]
  }

  function FolderTexts(f: FolderRec): seq<string> {
    [f.id, f.name, Whole(f.position)] + Maybe(f.parentFolderId)
  }

  function FolderLines(folders: seq<FolderRec>): (r: seq<string>)
    ensures |r| == |folders| && forall i :: 0 <= i < |folders| ==> r[i] == Row(FolderTexts(folders[i]))
  {
    seq(|folders|, i requires 0 <= i < |folders| => Row(FolderTexts(folders[i])))
  }

  function DocTexts(d: DocRec): seq<string> {
    [d.id, d.title, d.sourceType, Whole(d.fileSize), d.fileHash, Whole(d.chunkCount), Whole(d.tokenCount)] + Maybe(d.folderId)
  }

  function ChunkTexts(c: ChunkRec): seq<string> {
    [c.id, c.documentId, c.unitType, c.unitId, c.content, Whole(c.level), Whole(c.position), Whole(c.tokenCount), c.metadata]
    + Maybe(c.folderId) + MaybeFloat(c.qualityScore)
  }

  lemma FolderTextsAreInjective(a: FolderRec, b: FolderRec)
    requires FolderTexts(a) == FolderTexts(b)
    ensures a == b
  {
    var s, t := FolderTexts(a), FolderTexts(b);
    assert s[0] == t[0] && s[1] == t[1] && s[2] == t[2] && s[3] == t[3] && s[4] == t[4];
    WholeIsInjective(a.position, b.position);
  }

  lemma DocTextsAreInjective(a: DocRec, b: DocRec)
    requires DocTexts(a) == DocTexts(b)
    ensures a == b
  {
    var s, t := DocTexts(a), DocTexts(b);
    assert s[0] == t[0] && s[1] == t[1] && s[2] == t[2] && s[3] == t[3] && s[4] == t[4] && s[5] == t[5] && s[6] == t[6];
    assert s[7] == t[7] && s[8] == t[8];
    WholeIsInjective(a.fileSize, b.fileSize);
    WholeIsInjective(a.chunkCount, b.chunkCount);
    WholeIsInjective(a.tokenCount, b.tokenCount);
  }

  lemma ChunkTextsAreInjective(a: ChunkRec, b: ChunkRec)
    requires ChunkTexts(a) == ChunkTexts(b)
    ensures a == b
  {
    var s, t := ChunkTexts(a), ChunkTexts(b);
    assert s[0] == t[0] && s[1] == t[1] && s[2] == t[2] && s[3] == t[3] && s[4] == t[4] && s[8] == t[8];
    assert s[5] == t[5] && s[6] == t[6] && s[7] == t[7] && s[9] == t[9] && s[10] == t[10];
    assert s[11] == t[11] && s[12] == t[12] && s[13] == t[13];
    WholeIsInjective(a.level, b.level);
    WholeIsInjective(a.position, b.position);
    WholeIsInjective(a.tokenCount, b.tokenCount);
    if a.qualityScore.Some? {
      WholeIsInjective(a.qualityScore.value.significand, b.qualityScore.value.significand);
      WholeIsInjective(a.qualityScore.value.exponent, b.qualityScore.value.exponent);
    }
  }

  lemma FolderListsAreInjective(a: seq<FolderRec>, b: seq<FolderRec>)
    requires Row(["f"] + FolderLines(a)) == Row(["f"] + FolderLines(b))
    ensures a == b
  {
    RowIsInjective(["f"] + FolderLines(a), ["f"] + FolderLines(b));
    assert |a| == |b|;
    forall i | 0 <= i < |a| ensures a[i] == b[i] {
      assert (["f"] + FolderLines(a))[i + 1] == (["f"] + FolderLines(b))[i + 1];
      RowIsInjective(FolderTexts(a[i]), FolderTexts(b[i]));
      FolderTextsAreInjective(a[i], b[i]);
    }
  }

  // --- The codec ---

  ghost predicate Injective<T(!new)>(dump: T -> string) {
    forall a, b :: dump(a) == dump(b) ==> a == b
  }

  /** Reading back is looking for what was written. */
  ghost function Load<T(!new)>(dump: T -> string, s: string): Option<T> {
    if exists x :: dump(x) == s then
      var x :| dump(x) == s;
      Some(x)
    else None
  }

  lemma LoadsBack<T(!new)>(dump: T -> string)
    requires Injective(dump)
    ensures forall x :: Load(dump, dump(x)) == Some(x)
  {
  }

  ghost function DumpConfig(): Config -> string {
    (c: Config) => Row(ConfigTexts(c))
  }

  ghost function DumpFolders(): seq<FolderRec> -> string {
    (f: seq<FolderRec>) => Row(["f"] + FolderLines(f))
  }

  ghost function DumpDoc(): DocRec -> string {
    (d: DocRec) => Row(DocTexts(d))
  }

  ghost function DumpChunk(): ChunkRec -> string {
    (c: ChunkRec) => Row(ChunkTexts(c))
  }

  lemma DumpsAreInjective()
    ensures Injective(DumpConfig()) && Injective(DumpFolders()) && Injective(DumpDoc()) && Injective(DumpChunk())
  {
    forall a, b | DumpConfig()(a) == DumpConfig()(b) ensures a == b {
      RowIsInjective(ConfigTexts(a), ConfigTexts(b));
      var s, t := ConfigTexts(a), ConfigTexts(b);
      assert s[0] == t[0] && s[1] == t[1] && s[2] == t[2] && s[3] == t[3] && s[4] == t[4];
    }
    forall a, b | DumpFolders()(a) == DumpFolders()(b) ensures a == b { FolderListsAreInjective(a, b); }
    forall a, b | DumpDoc()(a) == DumpDoc()(b) ensures a == b {
      RowIsInjective(DocTexts(a), DocTexts(b));
      DocTextsAreInjective(a, b);
    }
    forall a, b | DumpChunk()(a) == DumpChunk()(b) ensures a == b {
      RowIsInjective(ChunkTexts(a), ChunkTexts(b));
      ChunkTextsAreInjective(a, b);
    }
  }

  lemma LinesAreOneLine(c: ChunkRec)
    ensures OneLine(DumpChunk()(c))
  {
    RowFacts(ChunkTexts(c));
  }

  /** So the laws asked of a codec can be kept. */
  lemma ACodecExists() returns (k: Codec)
    ensures CodecOk(k)
  {
    k := Codec((n: nat) => Decimal(n), s => if AllDigits(s) then Value(s) else 0,
               DumpConfig(), s => Load(DumpConfig(), s), DumpFolders(), s => Load(DumpFolders(), s),
               DumpDoc(), s => Load(DumpDoc(), s), DumpChunk(), s => Load(DumpChunk(), s));
    DumpsAreInjective();
    LoadsBack(DumpConfig());
    LoadsBack(DumpFolders());
    LoadsBack(DumpDoc());
    LoadsBack(DumpChunk());
    forall i: nat ensures k.parseId(k.idText(i)) == i && '/' !in k.idText(i) {
      assert AllDigits(Decimal(i));
    }
    forall c ensures OneLine(k.dumpChunk(c)) { LinesAreOneLine(c); }
  }
}
