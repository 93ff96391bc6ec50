/** The pure parts of the document pipeline in rag_engine.py: source
    listing and context formatting for retrieved chunks, the file-type
    dispatch, the construction of chunk documents, and the walk over a
    directory. Reading files is replaced by the text an extractor yields;
    listing a directory by a sequence of entries. */
module RagEngine {
  import opened Wrappers
  import opened PyStrings
  import opened Records
  import opened Chunker
  import opened VectorStores

  // ---------------------------------------------------------------------
  // get_sources

  /** `chunk.get('source', '')`. */
  function SourceOf(d: Doc): string {
    d.source.GetOr("")
  }

  predicate HasSource(cs: seq<Doc>, x: string) {
    exists i :: 0 <= i < |cs| && SourceOf(cs[i]) == x
  }

  lemma HasSourceLast(cs: seq<Doc>)
    requires |cs| > 0
    ensures forall x :: HasSource(cs, x) <==> HasSource(cs[..|cs| - 1], x) || SourceOf(cs[|cs| - 1]) == x
  {
    var init := cs[..|cs| - 1];
    forall x | HasSource(init, x) ensures HasSource(cs, x) {
      var i :| 0 <= i < |init| && SourceOf(init[i]) == x;
      assert cs[i] == init[i];
    }
    forall x | HasSource(cs, x) && SourceOf(cs[|cs| - 1]) != x ensures HasSource(init, x) {
      var i :| 0 <= i < |cs| && SourceOf(cs[i]) == x;
      assert init[i] == cs[i];
    }
  }

  /** `get_sources`: the non-empty sources of the chunks, each once, in
      sorted order. */
  function GetSources(cs: seq<Doc>): (r: seq<string>)
    ensures StrictlySorted(r)
    ensures forall x :: x in r <==> x != "" && HasSource(cs, x)
  {
    if |cs| == 0 then []
    else
      var rest := GetSources(cs[..|cs| - 1]);
      var src := SourceOf(cs[|cs| - 1]);
      HasSourceLast(cs);
      if src != "" then Insert(src, rest) else rest
  }

  /** The result is the one list `sorted(set(...))` makes: any strictly
      sorted list of exactly the non-empty sources equals it. */
  lemma GetSourcesIsSortedSet(cs: seq<Doc>, ys: seq<string>)
    requires StrictlySorted(ys)
    requires forall x :: x in ys <==> x != "" && HasSource(cs, x)
    ensures GetSources(cs) == ys
  {
    SortedUnique(GetSources(cs), ys);
  }

  // ---------------------------------------------------------------------
  // format_context

  const Separator: string := "\n---\n"

  /** `chunk.get('source', 'Unknown')`. */
  function SourceLabel(d: Doc): string {
    d.source.GetOr("Unknown")
  }

  /** The score as printed with two decimals; a chunk without one prints
      as a score of 0. */
  function ScoreLabel(d: Doc): string {
    d.score.GetOr("0.00")
  }

  /** The block for the `n`-th chunk. */
  function Part(n: nat, d: Doc): string {
    "[Source " + Decimal(n) + ": " + SourceLabel(d) + " (relevance: " + ScoreLabel(d) + ")]\n" + TextOf(d) + "\n"
  }

  /** The blocks of the chunks, numbered from 1. */
  function Parts(cs: seq<Doc>): (ps: seq<string>)
    ensures |ps| == |cs|
    ensures forall i :: 0 <= i < |cs| ==> ps[i] == Part(i + 1, cs[i])
  {
    seq(|cs|, i requires 0 <= i < |cs| => Part(i + 1, cs[i]))
  }

  lemma JoinStartsWithFirst(parts: seq<string>, sep: string)
    requires |parts| > 0
    ensures |parts[0]| <= |Join(parts, sep)| && Join(parts, sep)[..|parts[0]|] == parts[0]
  {
  }

  /** `format_context`: "" exactly when there are no chunks; otherwise the
      numbered blocks joined by a horizontal rule, the first one leading. */
  function FormatContext(cs: seq<Doc>): (r: string)
    ensures r == "" <==> |cs| == 0
    ensures |cs| > 0 ==> |Part(1, cs[0])| <= |r| && r[..|Part(1, cs[0])|] == Part(1, cs[0])
  {
    if |cs| == 0 then ""
    else
      JoinStartsWithFirst(Parts(cs), Separator);
      Join(Parts(cs), Separator)
  }

  /** One more chunk adds a rule and its block, numbered after the
      others, and leaves the earlier text as it was. */
  lemma FormatContextAppend(cs: seq<Doc>, d: Doc)
    requires |cs| > 0
    ensures FormatContext(cs + [d]) == FormatContext(cs) + Separator + Part(|cs| + 1, d)
  {
    assert Parts(cs + [d]) == Parts(cs) + [Part(|cs| + 1, d)];
    JoinAppend(Parts(cs), Part(|cs| + 1, d), Separator);
  }

  /** A single chunk is formatted as its block alone. */
  lemma FormatContextSingle(d: Doc)
    ensures FormatContext([d]) == Part(1, d)
  {
  }

  // ---------------------------------------------------------------------
  // Paths and file types

  predicate AllDots(s: string) {
    forall i :: 0 <= i < |s| ==> s[i] == '.'
  }

  /** `os.path.splitext(p)[1]` for POSIX paths: from the last "." of the
      last path component, unless that component is only dots up to it. */
  function Ext(p: string): (e: string)
    ensures |e| <= |p| && e == p[|p| - |e|..]
  {
    ExtFrom(p, RFind(p, "/", 0, |p|), RFind(p, ".", 0, |p|))
  }

  /** The extension given the positions of the last "/" and the last "."
      (-1 when there is none). */
  function ExtFrom(p: string, slash: int, dot: int): (e: string)
    requires -1 <= slash < |p| && -1 <= dot < |p|
    ensures |e| <= |p| && e == p[|p| - |e|..]
    ensures e != "" <==> dot > slash && !AllDots(p[slash + 1..dot])
  {
    if dot > slash && !AllDots(p[slash + 1..dot]) then p[dot..] else ""
  }

  /** `os.path.basename(p)`. */
  function Basename(p: string): (b: string)
    ensures |b| <= |p| && b == p[|p| - |b|..]
  {
    p[RFind(p, "/", 0, |p|) + 1..]
  }

  /** `os.path.join(dir, name)` for POSIX paths. */
  function PathJoin(dir: string, name: string): string {
    if |name| > 0 && name[0] == '/' then name
    else if dir == "" || dir[|dir| - 1] == '/' then dir + name
    else dir + "/" + name
  }

  /** Behind a directory part ending in "/", the last "/" is that one. */
  lemma SlashesOfJoined(pre: string, name: string)
    requires pre != "" && pre[|pre| - 1] == '/'
    requires '/' !in name
    ensures RFind(pre + name, "/", 0, |pre + name|) == |pre| - 1
    ensures RFind(name, "/", 0, |name|) == -1
  {
    var p := pre + name;
    forall j | |pre| <= j < |p| ensures p[j] != '/' {
      assert p[j] == name[j - |pre|];
    }
    RFindLast(p, '/', |pre| - 1);
    RFindBefore(name, '/', 0);
  }

  lemma ExtAfterSlashNoDot(pre: string, name: string)
    requires pre != "" && pre[|pre| - 1] == '/'
    requires '/' !in name
    requires RFind(name, ".", 0, |name|) == -1
    ensures Ext(pre + name) == "" && Ext(name) == ""
  {
    var p := pre + name;
    SlashesOfJoined(pre, name);
    forall j | 0 <= j < |name| ensures name[j] != '.' {
      OccursAtChar(name, '.', j);
    }
    forall j | |pre| <= j < |p| ensures p[j] != '.' {
      assert p[j] == name[j - |pre|];
    }
    RFindBefore(p, '.', |pre|);
  }

  /** The last "." of a name is the last "." of the name behind any
      directory part without one after it. */
  lemma DotsOfJoined(pre: string, name: string)
    requires RFind(name, ".", 0, |name|) != -1
    ensures RFind(pre + name, ".", 0, |pre + name|) == |pre| + RFind(name, ".", 0, |name|)
  {
    var p := pre + name;
    var dotN := RFind(name, ".", 0, |name|);
    OccursAtChar(name, '.', dotN);
    forall j | dotN < j < |name| ensures name[j] != '.' {
      OccursAtChar(name, '.', j);
    }
    forall j | |pre| + dotN < j < |p| ensures p[j] != '.' {
      assert p[j] == name[j - |pre|];
    }
    assert p[|pre| + dotN] == '.';
    RFindLast(p, '.', |pre| + dotN);
  }

  /** The positions move by the length of the directory part, and so
      does nothing else. */
  lemma ExtFromShift(pre: string, name: string, dotN: int)
    requires pre != "" && 0 <= dotN < |name|
    ensures ExtFrom(pre + name, |pre| - 1, |pre| + dotN) == ExtFrom(name, -1, dotN)
  {
    var p := pre + name;
    assert p[|pre|..|pre| + dotN] == name[0..dotN];
    assert p[|pre| + dotN..] == name[dotN..];
  }

  lemma ExtAfterSlashDot(pre: string, name: string)
    requires pre != "" && pre[|pre| - 1] == '/'
    requires '/' !in name
    requires RFind(name, ".", 0, |name|) != -1
    ensures Ext(pre + name) == Ext(name)
  {
    SlashesOfJoined(pre, name);
    DotsOfJoined(pre, name);
    ExtFromShift(pre, name, RFind(name, ".", 0, |name|));
  }

  /** Behind a directory part ending in "/", the extension of a name
      without "/" is the name's own. */
  lemma ExtAfterSlash(pre: string, name: string)
    requires pre == "" || pre[|pre| - 1] == '/'
    requires '/' !in name
    ensures Ext(pre + name) == Ext(name)
  {
    if pre == "" {
      assert pre + name == name;
    } else if RFind(name, ".", 0, |name|) == -1 {
      ExtAfterSlashNoDot(pre, name);
    } else {
      ExtAfterSlashDot(pre, name);
    }
  }

  /** The file type `process_document` reads off the joined path is the
      one `process_all_documents` read off the bare file name. */
  lemma ExtOfJoin(dir: string, name: string)
    requires '/' !in name
    ensures Ext(PathJoin(dir, name)) == Ext(name)
  {
    if dir == "" || dir[|dir| - 1] == '/' {
      ExtAfterSlash(dir, name);
    } else {
      assert dir + "/" + name == (dir + "/") + name;
      ExtAfterSlash(dir + "/", name);
    }
  }

  /** A name made of a stem, a dot and a suffix has no "/" when neither
      part has one. */
  lemma NameNoSlash(stem: string, x: string)
    requires '/' !in stem && '/' !in x
    ensures RFind(stem + "." + x, "/", 0, |stem + "." + x|) == -1
  {
    var p := stem + "." + x;
    forall j | 0 <= j < |p| ensures p[j] != '/' {
      if j < |stem| {
        assert p[j] == stem[j];
      } else if j > |stem| {
        assert p[j] == x[j - |stem| - 1];
      }
    }
    RFindBefore(p, '/', 0);
  }

  /** Its last dot is the one after the stem when the suffix has none. */
  lemma NameLastDot(stem: string, x: string)
    requires '.' !in x
    ensures RFind(stem + "." + x, ".", 0, |stem + "." + x|) == |stem|
  {
    var p := stem + "." + x;
    forall j | |stem| < j < |p| ensures p[j] != '.' {
      assert p[j] == x[j - |stem| - 1];
    }
    RFindLast(p, '.', |stem|);
  }

  /** A name made of a stem with some character other than a dot, a dot
      and a suffix without dots has that dot and suffix as extension. */
  lemma ExtOfName(stem: string, x: string)
    requires '/' !in stem && '/' !in x && '.' !in x
    requires !AllDots(stem)
    ensures Ext(stem + "." + x) == "." + x
  {
    var p := stem + "." + x;
    NameNoSlash(stem, x);
    NameLastDot(stem, x);
    assert p[0..|stem|] == stem;
    assert p[|stem|..] == "." + x;
  }

  /** The kinds of document the pipeline reads. */
  datatype FileKind = Pdf | Markdown | PlainText

  /** The extensions `process_all_documents` visits. */
  const SupportedExtensions: seq<string> := [".pdf", ".md", ".markdown", ".txt"]

  /** The extension dispatch of `process_document`: by the lower-cased
      extension; anything else is an unsupported file type. It accepts
      exactly the extensions the directory walk visits. */
  function KindOf(path: string): (r: Result<FileKind>)
    ensures r.Success? <==> Lower(Ext(path)) in SupportedExtensions
    ensures r.Success? ==> (r.value == Pdf <==> Lower(Ext(path)) == ".pdf")
    ensures r.Success? ==> (r.value == PlainText <==> Lower(Ext(path)) == ".txt")
    ensures r.Failure? ==> r.error == "Unsupported file type: " + Lower(Ext(path))
  {
    var e := Lower(Ext(path));
    if e == ".pdf" then Success(Pdf)
    else if e in [".md", ".markdown"] then Success(Markdown)
    else if e == ".txt" then Success(PlainText)
    else Failure("Unsupported file type: " + e)
  }

  /** Lower-casing keeps out the dots and slashes a suffix has not got. */
  lemma LowerKeepsPlain(x: string)
    requires '/' !in x && '.' !in x
    ensures '/' !in Lower(x) && '.' !in Lower(x)
  {
    var y := Lower(x);
    forall i | 0 <= i < |y| ensures y[i] != '/' && y[i] != '.' {
      assert y[i] == LowerChar(x[i]) && x[i] != '/' && x[i] != '.';
    }
  }

  /** Lower-casing a dotted suffix twice changes nothing more. */
  lemma LowerDotted(x: string)
    ensures Lower("." + x) == Lower("." + Lower(x))
  {
    var a, b := Lower("." + x), Lower("." + Lower(x));
    assert forall i :: 0 < i < |a| ==> a[i] == LowerChar(x[i - 1]) && b[i] == LowerChar(Lower(x)[i - 1]);
  }

  /** Paths whose lower-cased extensions agree are of the same kind. */
  lemma KindBySameExt(p: string, q: string)
    requires Lower(Ext(p)) == Lower(Ext(q))
    ensures KindOf(p) == KindOf(q)
  {
  }

  /** The file type ignores the case of the extension: a name is read as
      the same kind as the name with its suffix lower-cased. */
  lemma KindIgnoresCase(stem: string, x: string)
    requires '/' !in stem && !AllDots(stem)
    requires '/' !in x && '.' !in x
    ensures KindOf(stem + "." + x) == KindOf(stem + "." + Lower(x))
  {
    LowerKeepsPlain(x);
    ExtOfName(stem, x);
    ExtOfName(stem, Lower(x));
    LowerDotted(x);
    KindBySameExt(stem + "." + x, stem + "." + Lower(x));
  }

  // ---------------------------------------------------------------------
  // process_document

  /** One document per chunk, carrying the chunk as its content, the
      source name, the file path and its position among the chunks. */
  function BuildDocuments(chunks: seq<string>, source: string, path: string): (docs: seq<Doc>)
    ensures |docs| == |chunks|
    ensures forall i :: 0 <= i < |docs| ==> TextOf(docs[i]) == chunks[i]
    ensures forall i :: 0 <= i < |docs| ==>
              docs[i].source == Some(source) && docs[i].meta == Some(DocMeta(path, i, |docs|))
  {
    seq(|chunks|, i requires 0 <= i < |chunks| => Doc(Some(chunks[i]), Some(source), Some(DocMeta(path, i, |chunks|)), None))
  }

  /** What processing a document leaves: the store with its chunks added
      and the number of chunks. */
  datatype Processed = Processed(store: FaissStore, count: nat)

  /** `process_document`. `present` says whether the file is there and
      `extracted` is what the reader for its kind yields (or the error it
      raises). The text is cut with the corrected chunker. */
  function ProcessDocument(store: FaissStore, embed: string -> Embedding, path: string,
                           sourceName: Option<string>, present: bool, extracted: Result<string>,
                           size: int, overlap: int): (r: Result<Processed>)
    requires size > 0
    ensures !present ==> r == Failure("File not found: " + path)
    ensures present && KindOf(path).Failure? ==> r == Failure(KindOf(path).error)
    ensures r.Success? <==> present && KindOf(path).Success? && extracted.Success?
    ensures r.Success? ==> r.value.count == |ChunkText(extracted.value, size, overlap)| >= 1
    ensures r.Success? ==>
              r.value.store.documents ==
              store.documents + BuildDocuments(ChunkText(extracted.value, size, overlap), sourceName.GetOr(Basename(path)), path)
    ensures r.Success? ==> (Lockstep(store) ==> Lockstep(r.value.store))
  {
    if !present then Failure("File not found: " + path)
    else
      var source := sourceName.GetOr(Basename(path));
      var kind :- KindOf(path);
      var text :- extracted;
      var chunks := ChunkText(text, size, overlap);
      var docs := BuildDocuments(chunks, source, path);
      Success(Processed(AddDocuments(store, docs, embed), |chunks|))
  }

  // ---------------------------------------------------------------------
  // process_all_documents

  /** A directory entry: its name, whether it is a regular file, and what
      reading it as its kind yields. */
  datatype Entry = Entry(name: string, isFile: bool, extracted: Result<string>)

  /** The entries the walk hands to `process_document`. */
  predicate Visited(e: Entry) {
    e.isFile && Lower(Ext(e.name)) in SupportedExtensions
  }

  /** A visited entry handed to `process_document` under its joined path
      and its name as source; when that raises, its count is 0 and the
      store is left as it was. */
  function ProcessEntry(store: FaissStore, embed: string -> Embedding, dir: string, e: Entry,
                        size: int, overlap: int): (p: Processed)
    requires size > 0
    ensures |store.documents| <= |p.store.documents| && p.store.documents[..|store.documents|] == store.documents
    ensures Lockstep(store) ==> Lockstep(p.store)
  {
    match ProcessDocument(store, embed, PathJoin(dir, e.name), Some(e.name), true, e.extracted, size, overlap)
    case Success(q) => q
    case Failure(_) => Processed(store, 0)
  }

  /** The number of chunks of an entry's text, or 0 when it could not be
      read. */
  function ExpectedCount(e: Entry, size: int, overlap: int): nat
    requires size > 0
  {
    if e.extracted.Success? then |ChunkText(e.extracted.value, size, overlap)| else 0
  }

  /** The count of a visited file is its number of chunks when it could
      be read and 0 when reading it failed: its type check never fails,
      because the walk checked the same extension on the bare name. */
  lemma ProcessEntryCount(store: FaissStore, embed: string -> Embedding, dir: string, e: Entry,
                          size: int, overlap: int)
    requires size > 0
    requires Visited(e) && '/' !in e.name
    ensures ProcessEntry(store, embed, dir, e, size, overlap).count == ExpectedCount(e, size, overlap)
  {
    ExtOfJoin(dir, e.name);
  }

  datatype Batch = Batch(store: FaissStore, results: map<string, nat>)

  /** `process_all_documents` over the entries in listing order. */
  function ProcessAllDocuments(store: FaissStore, embed: string -> Embedding, dir: string,
                               entries: seq<Entry>, size: int, overlap: int): (r: Batch)
    requires size > 0
    ensures |store.documents| <= |r.store.documents| && r.store.documents[..|store.documents|] == store.documents
    ensures Lockstep(store) ==> Lockstep(r.store)
  {
    if |entries| == 0 then Batch(store, map[])
    else
      var init := entries[..|entries| - 1];
      var e := entries[|entries| - 1];
      var prev := ProcessAllDocuments(store, embed, dir, init, size, overlap);
      if !Visited(e) then prev
      else
        var p := ProcessEntry(prev.store, embed, dir, e, size, overlap);
        Batch(p.store, prev.results[e.name := p.count])
  }

  /** The walk records a count for exactly the regular files with a
      supported extension. */
  lemma {:induction false} ProcessAllVisits(store: FaissStore, embed: string -> Embedding, dir: string,
                                           entries: seq<Entry>, size: int, overlap: int)
    requires size > 0
    ensures ProcessAllDocuments(store, embed, dir, entries, size, overlap).results.Keys ==
              set e | e in entries && Visited(e) :: e.name
  {
    if |entries| > 0 {
      var init := entries[..|entries| - 1];
      var e := entries[|entries| - 1];
      ProcessAllVisits(store, embed, dir, init, size, overlap);
      assert forall x :: x in entries <==> x in init || x == e;
    }
  }

  predicate DistinctNames(entries: seq<Entry>) {
    forall i, j :: 0 <= i < j < |entries| ==> entries[i].name != entries[j].name
  }

  /** The last entry, when visited, gets its own count. */
  lemma ProcessAllLast(store: FaissStore, embed: string -> Embedding, dir: string,
                       entries: seq<Entry>, size: int, overlap: int)
    requires size > 0 && |entries| > 0
    requires Visited(entries[|entries| - 1]) && '/' !in entries[|entries| - 1].name
    ensures entries[|entries| - 1].name in ProcessAllDocuments(store, embed, dir, entries, size, overlap).results
    ensures ProcessAllDocuments(store, embed, dir, entries, size, overlap).results[entries[|entries| - 1].name] ==
              ExpectedCount(entries[|entries| - 1], size, overlap)
  {
    var prev := ProcessAllDocuments(store, embed, dir, entries[..|entries| - 1], size, overlap);
    ProcessEntryCount(prev.store, embed, dir, entries[|entries| - 1], size, overlap);
  }

  /** A count recorded before the last entry stays when the last entry
      has another name. */
  lemma ProcessAllEarlier(store: FaissStore, embed: string -> Embedding, dir: string,
                          entries: seq<Entry>, size: int, overlap: int, name: string)
    requires size > 0 && |entries| > 0 && entries[|entries| - 1].name != name
    requires name in ProcessAllDocuments(store, embed, dir, entries[..|entries| - 1], size, overlap).results
    ensures name in ProcessAllDocuments(store, embed, dir, entries, size, overlap).results
    ensures ProcessAllDocuments(store, embed, dir, entries, size, overlap).results[name] ==
              ProcessAllDocuments(store, embed, dir, entries[..|entries| - 1], size, overlap).results[name]
  {
  }

  /** Distinct names stay distinct without the last entry. */
  lemma DistinctInit(entries: seq<Entry>)
    requires |entries| > 0 && DistinctNames(entries)
    ensures DistinctNames(entries[..|entries| - 1])
  {
    var init := entries[..|entries| - 1];
    forall i, j | 0 <= i < j < |init| ensures init[i].name != init[j].name {
      assert init[i] == entries[i] && init[j] == entries[j];
    }
  }

  /** The count recorded for a visited file: its number of chunks when it
      could be read, 0 when reading it failed. */
  lemma {:induction false} ProcessAllCounts(store: FaissStore, embed: string -> Embedding, dir: string,
                                           entries: seq<Entry>, size: int, overlap: int, k: nat)
    requires size > 0
    requires DistinctNames(entries)
    requires forall i :: 0 <= i < |entries| ==> '/' !in entries[i].name
    requires k < |entries| && Visited(entries[k])
    ensures entries[k].name in ProcessAllDocuments(store, embed, dir, entries, size, overlap).results
    ensures ProcessAllDocuments(store, embed, dir, entries, size, overlap).results[entries[k].name] ==
              ExpectedCount(entries[k], size, overlap)
  {
    if k == |entries| - 1 {
      ProcessAllLast(store, embed, dir, entries, size, overlap);
    } else {
      var init := entries[..|entries| - 1];
      assert init[k] == entries[k];
      DistinctInit(entries);
      assert forall i :: 0 <= i < |init| ==> '/' !in init[i].name;
      ProcessAllCounts(store, embed, dir, init, size, overlap, k);
      ProcessAllEarlier(store, embed, dir, entries, size, overlap, entries[k].name);
    }
  }
}
