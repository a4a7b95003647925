/** The retrieval store: documents found in a folder are loaded, split into chunks and added,
    in batches, to one collection of a persistent vector database; queries read that collection
    back. Embeddings, the similarity search, the file loaders and the text splitter are
    parameters of the model. */
module Rag {
  import opened Wrappers
  import opened Text
  import opened Records

  /** The one collection the system builds and reads. */
  const CollectionName := "retail_knowledge"

  /** How many chunks one `add` stores. */
  const BatchSize := 100

  /** The demo documents written when the folder holds nothing to load, in writing order. */
  const SampleNames: seq<string> := ["menu.txt", "store_policies.txt", "refund_faqs.txt"]

  /** A file in the documents folder. */
  datatype File = File(name: string, content: string)

  /** A loaded document, or a chunk of one: its `page_content` and its `metadata`. */
  datatype Document = Document(content: string, metadata: Record)

  /** What the collection keeps for one chunk: its id, its text and its `source` metadata. */
  datatype StoredChunk = StoredChunk(id: string, text: string, source: Value)

  /** The loader a file is opened with. */
  datatype LoaderKind = PdfLoader | TextLoader

  predicate EndsWith(s: string, suffix: string)
  {
    |s| >= |suffix| && s[|s| - |suffix|..] == suffix
  }

  function Min(a: int, b: int): int
  {
    if a <= b then a else b
  }

  /** `Path.glob("*" + ext)`: the files whose name ends with `ext`, in folder order. */
  function Matching(files: seq<File>, ext: string): seq<File>
  {
    if files == [] then []
    else (if EndsWith(files[0].name, ext) then [files[0]] else []) + Matching(files[1..], ext)
  }

  /** The glob keeps exactly the files whose name ends with `ext`. */
  lemma {:induction false} MatchingMembers(files: seq<File>, ext: string)
    ensures forall f :: f in Matching(files, ext) <==> f in files && EndsWith(f.name, ext)
  {
    if files != [] {
      MatchingMembers(files[1..], ext);
      assert files == [files[0]] + files[1..];
    }
  }

  /** Globbing a folder made of two parts lists the first part's matches, then the second's. */
  lemma {:induction false} MatchingConcat(a: seq<File>, b: seq<File>, ext: string)
    ensures Matching(a + b, ext) == Matching(a, ext) + Matching(b, ext)
  {
    if a == [] {
      assert a + b == b;
    } else {
      MatchingConcat(a[1..], b, ext);
      assert (a + b)[0] == a[0] && (a + b)[1..] == a[1..] + b;
      var head := if EndsWith(a[0].name, ext) then [a[0]] else [];
      assert head + (Matching(a[1..], ext) + Matching(b, ext))
          == (head + Matching(a[1..], ext)) + Matching(b, ext);
    }
  }

  predicate AllMatch(ws: seq<File>, ext: string)
  {
    forall i :: 0 <= i < |ws| ==> EndsWith(ws[i].name, ext)
  }

  /** Files that all match are all listed, in order. */
  lemma {:induction false} MatchingAll(ws: seq<File>, ext: string)
    requires AllMatch(ws, ext)
    ensures Matching(ws, ext) == ws
  {
    if ws != [] {
      assert AllMatch(ws[1..], ext);
      MatchingAll(ws[1..], ext);
    }
  }

  /** The files `build_vector_store` lists first: the `.pdf` files, then the `.txt` files. */
  function Listing(files: seq<File>): seq<File>
  {
    Matching(files, ".pdf") + Matching(files, ".txt")
  }

  /** `file_path.suffix == ".pdf"` for a listed file: the name ends with `.pdf` and has
      something before that dot (a bare `.pdf` has no suffix). */
  function Kind(f: File): LoaderKind
  {
    if |f.name| > 4 && EndsWith(f.name, ".pdf") then PdfLoader else TextLoader
  }

  /** `open(path, "w").write(content)`: an existing file is overwritten in place, a new one
      is added at the end of the folder. */
  function WriteFile(files: seq<File>, name: string, content: string): (r: seq<File>)
    ensures (forall i :: 0 <= i < |files| ==> files[i].name != name) ==>
              r == files + [File(name, content)]
  {
    if files == [] then [File(name, content)]
    else if files[0].name == name then [File(name, content)] + files[1..]
    else [files[0]] + WriteFile(files[1..], name, content)
  }

  /** After a write the folder holds the written file, and every file under another name is
      the one it held before. */
  lemma {:induction false} WriteFileMembers(files: seq<File>, name: string, content: string)
    ensures File(name, content) in WriteFile(files, name, content)
    ensures forall f: File :: f.name != name ==> (f in WriteFile(files, name, content) <==> f in files)
  {
    if files != [] && files[0].name != name {
      WriteFileMembers(files[1..], name, content);
      assert files == [files[0]] + files[1..];
    }
  }

  /** The folder after the named files are written, in order, with `text(name)` as content. */
  function WriteAll(files: seq<File>, names: seq<string>, text: string -> string): seq<File>
  {
    if names == [] then files
    else
      var last := names[|names| - 1];
      WriteFile(WriteAll(files, names[..|names| - 1], text), last, text(last))
  }

  /** The folder after `_create_sample_documents`. The sample texts themselves are the
      parameter `text`. */
  function WithSamples(files: seq<File>, text: string -> string): seq<File>
  {
    WriteAll(files, SampleNames, text)
  }

  /** The files `build_vector_store` loads: the listing, or, when that is empty, the `.txt`
      files of the folder once the samples are written. */
  function Sources(files: seq<File>, text: string -> string): seq<File>
  {
    if Listing(files) == [] then Matching(WithSamples(files, text), ".txt") else Listing(files)
  }

  /** The sample names are distinct `.txt` names. */
  lemma SampleNamesFacts()
    ensures |SampleNames| == 3
    ensures forall j :: 0 <= j < |SampleNames| ==> EndsWith(SampleNames[j], ".txt")
    ensures DistinctNames(SampleNames)
  {
    assert |SampleNames[0]| == 8 && |SampleNames[1]| == 18 && |SampleNames[2]| == 15;
  }

  /** The files each name produces, in writing order. */
  function Written(names: seq<string>, text: string -> string): (r: seq<File>)
    ensures |r| == |names|
  {
    seq(|names|, j requires 0 <= j < |names| => File(names[j], text(names[j])))
  }

  predicate DistinctNames(names: seq<string>)
  {
    forall i, j :: 0 <= i < j < |names| ==> names[i] != names[j]
  }

  /** No file of the folder has any of the names. */
  predicate NewNames(files: seq<File>, names: seq<string>)
  {
    forall i, j :: 0 <= i < |files| && 0 <= j < |names| ==> files[i].name != names[j]
  }

  /** Names new to the folder and distinct from each other are written as new files, each
      added at the end. */
  lemma {:induction false} WriteAllAppends(files: seq<File>, names: seq<string>, text: string -> string)
    requires DistinctNames(names) && NewNames(files, names)
    ensures WriteAll(files, names, text) == files + Written(names, text)
  {
    if names != [] {
      var init := names[..|names| - 1];
      WriteAllInit(files, names);
      WriteAllAppends(files, init, text);
      WriteAllLast(files, names, text);
    }
  }

  lemma WriteAllInit(files: seq<File>, names: seq<string>)
    requires DistinctNames(names) && NewNames(files, names) && names != []
    ensures DistinctNames(names[..|names| - 1]) && NewNames(files, names[..|names| - 1])
  {
  }

  /** With the earlier names written as new files, the last name is new too and is appended. */
  lemma WriteAllLast(files: seq<File>, names: seq<string>, text: string -> string)
    requires DistinctNames(names) && NewNames(files, names) && names != []
    requires WriteAll(files, names[..|names| - 1], text) == files + Written(names[..|names| - 1], text)
    ensures WriteAll(files, names, text) == files + Written(names, text)
  {
    var init := names[..|names| - 1];
    var last := names[|names| - 1];
    var w := files + Written(init, text);
    forall i | 0 <= i < |w| ensures w[i].name != last {
      if i >= |files| {
        assert w[i].name == names[i - |files|];
      }
    }
    assert w + [File(last, text(last))] == files + Written(names, text);
  }

  /** A folder with nothing to list gets exactly the three samples, as new files, and those
      are what is loaded, in the order they were written. */
  lemma SamplesListed(files: seq<File>, text: string -> string)
    requires Listing(files) == []
    ensures WithSamples(files, text) == files + Written(SampleNames, text)
    ensures Sources(files, text) == Written(SampleNames, text)
  {
    assert Matching(files, ".txt") == [];
    MatchingMembers(files, ".txt");
    SampleNamesFacts();
    assert NewNames(files, SampleNames) by {
      forall i, j | 0 <= i < |files| && 0 <= j < |SampleNames|
        ensures files[i].name != SampleNames[j]
      {
        assert files[i] in files;
      }
    }
    WriteAllAppends(files, SampleNames, text);
    var w := Written(SampleNames, text);
    assert AllMatch(w, ".txt");
    MatchingConcat(files, w, ".txt");
    MatchingAll(w, ".txt");
  }

  /** What loading one file contributes: its documents, or none when the loader raised. */
  function Loads(f: File, load: (LoaderKind, File) -> Result<seq<Document>, PyError>): seq<Document>
  {
    match load(Kind(f), f)
    case Ok(docs) => docs
    case Err(_) => []
  }

  /** The documents loaded from `files`, in order. */
  function Loaded(files: seq<File>, load: (LoaderKind, File) -> Result<seq<Document>, PyError>): seq<Document>
  {
    if files == [] then []
    else Loaded(files[..|files| - 1], load) + Loads(files[|files| - 1], load)
  }

  lemma {:induction false} LoadedAppend(a: seq<File>, b: seq<File>,
                                        load: (LoaderKind, File) -> Result<seq<Document>, PyError>)
    ensures Loaded(a + b, load) == Loaded(a, load) + Loaded(b, load)
    decreases |b|
  {
    if b == [] {
      assert a + b == a;
    } else {
      var b' := b[..|b| - 1];
      assert (a + b)[..|a + b| - 1] == a + b';
      LoadedAppend(a, b', load);
    }
  }

  /** A file whose loader raises is skipped; the files around it are still loaded. */
  lemma SkipsFailedFile(a: seq<File>, f: File, b: seq<File>,
                        load: (LoaderKind, File) -> Result<seq<Document>, PyError>)
    requires load(Kind(f), f).Err?
    ensures Loaded(a + [f] + b, load) == Loaded(a, load) + Loaded(b, load)
  {
    LoadedAppend(a + [f], b, load);
    LoadedSnoc(a, f, load);
  }

  lemma LoadedSnoc(a: seq<File>, f: File, load: (LoaderKind, File) -> Result<seq<Document>, PyError>)
    ensures Loaded(a + [f], load) == Loaded(a, load) + Loads(f, load)
  {
    assert (a + [f])[..|a|] == a;
  }

  /** Nothing is loaded exactly when every file fails or yields no document. */
  lemma {:induction false} LoadedEmpty(files: seq<File>,
                                       load: (LoaderKind, File) -> Result<seq<Document>, PyError>)
    ensures Loaded(files, load) == [] <==> forall i :: 0 <= i < |files| ==> Loads(files[i], load) == []
  {
    if files != [] {
      var init := files[..|files| - 1];
      LoadedEmpty(init, load);
      assert forall i :: 0 <= i < |init| ==> init[i] == files[i];
    }
  }

  /** The id the chunk at global position `p` is stored under. */
  function ChunkId(p: nat): string
  {
    "doc_" + NatToString(p)
  }

  /** What the collection keeps for the chunk at position `p`: its text, and the `source` of
      its metadata, or `"unknown"`. */
  function StoredAt(chunks: seq<Document>, p: nat): StoredChunk
    requires p < |chunks|
  {
    StoredChunk(ChunkId(p), chunks[p].content, GetOr(chunks[p].metadata, "source", Str("unknown")))
  }

  /** The collection after every chunk is added, in chunk order. */
  function StoredChunks(chunks: seq<Document>): (r: seq<StoredChunk>)
  {
    seq(|chunks|, p requires 0 <= p < |chunks| => StoredAt(chunks, p))
  }

  /** The stored chunks up to `end` are those up to `i` followed by the ones from `i` to `end`. */
  lemma StoredRange(chunks: seq<Document>, i: nat, end: nat)
    requires i <= end <= |chunks|
    ensures StoredChunks(chunks)[..end]
            == StoredChunks(chunks)[..i] + seq(end - i, j requires 0 <= j < end - i => StoredAt(chunks, i + j))
  {
    var r := StoredChunks(chunks)[..i] + seq(end - i, j requires 0 <= j < end - i => StoredAt(chunks, i + j));
    assert forall p | 0 <= p < end :: StoredChunks(chunks)[..end][p] == r[p];
  }

  /** Distinct positions get distinct ids, so no `add` collides with an earlier one. */
  lemma ChunkIdsDistinct(p: nat, q: nat)
    requires p != q
    ensures ChunkId(p) != ChunkId(q)
  {
    if ChunkId(p) == ChunkId(q) {
      assert NatToString(p) == ChunkId(p)[4..];
      assert NatToString(q) == ChunkId(q)[4..];
      NatToStringInjective(p, q);
    }
  }

  /** The stored collection keeps every chunk once, in order, under distinct ids. */
  lemma StoredChunksFaithful(chunks: seq<Document>)
    ensures |StoredChunks(chunks)| == |chunks|
    ensures forall p :: 0 <= p < |chunks| ==> StoredChunks(chunks)[p].text == chunks[p].content
    ensures forall p, q :: 0 <= p < q < |chunks| ==> StoredChunks(chunks)[p].id != StoredChunks(chunks)[q].id
    ensures forall p :: 0 <= p < |chunks| && FieldOf(chunks[p].metadata, "source").None? ==>
              StoredChunks(chunks)[p].source == Str("unknown")
    ensures forall p, v :: 0 <= p < |chunks| && FieldOf(chunks[p].metadata, "source") == Some(v) ==>
              StoredChunks(chunks)[p].source == v
  {
    forall p, q | 0 <= p < q < |chunks|
      ensures StoredChunks(chunks)[p].id != StoredChunks(chunks)[q].id
    {
      ChunkIdsDistinct(p, q);
    }
  }

  /** The slices `chunks[i:i + 100]` for `i` in `range(0, len(chunks), 100)`. */
  function Batches<T>(xs: seq<T>): seq<seq<T>>
    decreases |xs|
  {
    if xs == [] then []
    else if |xs| <= BatchSize then [xs]
    else [xs[..BatchSize]] + Batches(xs[BatchSize..])
  }

  function Flatten<T>(xss: seq<seq<T>>): seq<T>
  {
    if xss == [] then [] else xss[0] + Flatten(xss[1..])
  }

  /** The batches cover the chunks exactly once, in order, none empty and none over 100. */
  lemma {:induction false} BatchesCover<T>(xs: seq<T>)
    ensures Flatten(Batches(xs)) == xs
    ensures forall b :: b in Batches(xs) ==> 0 < |b| <= BatchSize
    decreases |xs|
  {
    if xs == [] {
    } else if |xs| <= BatchSize {
      assert Batches(xs) == [xs];
      assert Flatten([xs]) == xs + Flatten([xs][1..]);
    } else {
      var rest := Batches(xs[BatchSize..]);
      BatchesCover(xs[BatchSize..]);
      assert Batches(xs) == [xs[..BatchSize]] + rest;
      assert ([xs[..BatchSize]] + rest)[1..] == rest;
      assert xs[..BatchSize] + xs[BatchSize..] == xs;
    }
  }

  lemma SliceOfSuffix<T>(xs: seq<T>, k: nat, lo: nat, hi: nat)
    requires k <= |xs| && lo <= hi <= |xs| - k
    ensures xs[k..][lo..hi] == xs[k + lo..k + hi]
  {
  }

  /** Batch `q` is the slice starting at `100 * q`: the slice the loop takes at that step. */
  lemma {:induction false} BatchAt<T>(xs: seq<T>, q: nat)
    requires BatchSize * q < |xs|
    ensures q < |Batches(xs)|
    ensures Batches(xs)[q] == xs[BatchSize * q..Min(BatchSize * q + BatchSize, |xs|)]
    decreases q
  {
    if q > 0 {
      assert |xs| > BatchSize;
      var rest := xs[BatchSize..];
      BatchAt(rest, q - 1);
      assert Batches(xs) == [xs[..BatchSize]] + Batches(rest);
      var lo := BatchSize * (q - 1);
      var hi := Min(lo + BatchSize, |rest|);
      assert BatchSize * q == lo + BatchSize;
      assert Min(BatchSize * q + BatchSize, |xs|) == hi + BatchSize;
      SliceOfSuffix(xs, BatchSize, lo, hi);
    }
  }

  /** `results["documents"][0]` when the query returned any list of documents, else none.
      The query's ranking is a parameter of `Retrieve`. */
  function FirstResults(results: seq<seq<string>>): seq<string>
  {
    if results == [] then [] else results[0]
  }

  /** What `retrieve` gives over the collections `collections`: nothing when the collection
      cannot be opened, otherwise the first result list of the query, or what encoding the
      query or querying the collection raises. */
  function Retrieved(collections: map<string, seq<StoredChunk>>, name: string, query: string,
                     k: int, search: (seq<StoredChunk>, string, int) -> Result<seq<seq<string>>, PyError>)
    : (r: Result<seq<string>, PyError>)
    ensures name !in collections ==> r == Ok([])
    ensures name in collections && search(collections[name], query, k).Err? ==>
              r == Err(search(collections[name], query, k).error)
    ensures name in collections && search(collections[name], query, k).Ok? ==>
              r.Ok? && (r.value == [] || r.value in search(collections[name], query, k).value)
  {
    if name !in collections then Ok([])
    else
      match search(collections[name], query, k)
      case Err(e) => Err(e)
      case Ok(results) => Ok(FirstResults(results))
  }

  /** The database: the collections it holds, by name. */
  class Client {
    var collections: map<string, seq<StoredChunk>>

    constructor(collections: map<string, seq<StoredChunk>>)
      ensures this.collections == collections
    {
      this.collections := collections;
    }

    /** `delete_collection`, which raises when there is nothing to delete. */
    method DeleteCollection(name: string) returns (existed: bool)
      modifies this
      ensures existed <==> name in old(collections)
      ensures collections == old(collections) - {name}
    {
      existed := name in collections;
      collections := collections - {name};
    }

    /** `create_collection`, which raises when the name is taken. */
    method CreateCollection(name: string)
      modifies this
      requires name !in collections
      ensures collections == old(collections)[name := []]
    {
      collections := collections[name := []];
    }

    /** `collection.add`: the chunks go after those already stored. */
    method Add(name: string, ids: seq<string>, texts: seq<string>, sources: seq<Value>)
      modifies this
      requires name in collections
      requires |ids| == |texts| == |sources|
      ensures collections == old(collections)[name := old(collections)[name] +
                seq(|ids|, j requires 0 <= j < |ids| => StoredChunk(ids[j], texts[j], sources[j]))]
    {
      var added := seq(|ids|, j requires 0 <= j < |ids| => StoredChunk(ids[j], texts[j], sources[j]));
      collections := collections[name := collections[name] + added];
    }
  }

  /** The documents folder. */
  class Folder {
    var files: seq<File>

    constructor(files: seq<File>)
      ensures this.files == files
    {
      this.files := files;
    }

    /** `_create_sample_documents`: the samples are written one after the other. */
    method CreateSampleDocuments(text: string -> string)
      modifies this
      ensures files == WithSamples(old(files), text)
    {
      for n := 0 to |SampleNames|
        invariant files == WriteAll(old(files), SampleNames[..n], text)
      {
        var name := SampleNames[n];
        assert SampleNames[..n + 1][..n] == SampleNames[..n];
        files := WriteFile(files, name, text(name));
      }
      assert SampleNames[..|SampleNames|] == SampleNames;
    }
  }

  /** The loading loop of `build_vector_store`: each file is loaded with the loader its suffix
      picks; one that raises is reported and skipped. */
  method LoadDocuments(files: seq<File>, load: (LoaderKind, File) -> Result<seq<Document>, PyError>)
    returns (documents: seq<Document>)
    ensures documents == Loaded(files, load)
  {
    documents := [];
    for n := 0 to |files|
      invariant documents == Loaded(files[..n], load)
    {
      assert files[..n + 1][..n] == files[..n];
      var docs := load(Kind(files[n]), files[n]);
      if docs.Ok? {
        documents := documents + docs.value;
      }
    }
    assert files[..|files|] == files;
  }

  class RagSystem {
    const client: Client
    const collectionName: string

    /** `RAGSystem()` once its dependencies are importable; the embedding model is not part
        of this model. */
    constructor(client: Client)
      ensures this.client == client && collectionName == CollectionName
    {
      this.client := client;
      collectionName := CollectionName;
    }

    /** The batching loop of `build_vector_store`, into the freshly created collection. */
    method AddBatches(chunks: seq<Document>)
      modifies client
      requires collectionName in client.collections && client.collections[collectionName] == []
      ensures client.collections == old(client.collections)[collectionName := StoredChunks(chunks)]
    {
      var i: nat := 0;
      ghost var q: nat := 0;
      while i < |chunks|
        invariant i == BatchSize * q
        invariant client.collections
               == old(client.collections)[collectionName := StoredChunks(chunks)[..Min(i, |chunks|)]]
        decreases |chunks| - i
      {
        var end := Min(i + BatchSize, |chunks|);
        var batch := chunks[i..end];
        BatchAt(chunks, q);
        assert batch == Batches(chunks)[q];
        var texts := seq(|batch|, j requires 0 <= j < |batch| => batch[j].content);
        var ids := seq(|batch|, j requires 0 <= j < |batch| => ChunkId(i + j));
        var sources := seq(|batch|, j requires 0 <= j < |batch| =>
                             GetOr(batch[j].metadata, "source", Str("unknown")));
        client.Add(collectionName, ids, texts, sources);
        StoredRange(chunks, i, end);
        assert seq(|ids|, j requires 0 <= j < |ids| => StoredChunk(ids[j], texts[j], sources[j]))
            == seq(end - i, j requires 0 <= j < end - i => StoredAt(chunks, i + j));
        i := i + BatchSize;
        q := q + 1;
      }
      assert StoredChunks(chunks)[..|chunks|] == StoredChunks(chunks);
    }

    /** `build_vector_store`. With nothing to list, the samples are written and the `.txt`
        files listed again. With nothing loaded, it returns before touching the database, so
        an earlier collection survives. Otherwise the collection is dropped, created again and
        filled with exactly the chunks `split` makes of the loaded documents. */
    method BuildVectorStore(folder: Folder, text: string -> string,
                            load: (LoaderKind, File) -> Result<seq<Document>, PyError>,
                            split: seq<Document> -> seq<Document>)
      modifies client, folder
      ensures folder.files == if Listing(old(folder.files)) == [] then WithSamples(old(folder.files), text)
                              else old(folder.files)
      ensures Loaded(Sources(old(folder.files), text), load) == [] ==>
                client.collections == old(client.collections)
      ensures Loaded(Sources(old(folder.files), text), load) != [] ==>
                client.collections == old(client.collections)[collectionName :=
                  StoredChunks(split(Loaded(Sources(old(folder.files), text), load)))]
    {
      var files := Listing(folder.files);
      if files == [] {
        folder.CreateSampleDocuments(text);
        files := Matching(folder.files, ".txt");
      }
      var documents := LoadDocuments(files, load);
      if documents == [] {
        return;
      }
      var chunks := split(documents);
      var existed := client.DeleteCollection(collectionName);
      client.CreateCollection(collectionName);
      AddBatches(chunks);
    }

    /** `retrieve(query, k)`: nothing when the collection cannot be opened; otherwise the
        first list of documents `search` finds for the query, or nothing, or the error that
        encoding or querying raises. */
    method Retrieve(query: string, k: int,
                    search: (seq<StoredChunk>, string, int) -> Result<seq<seq<string>>, PyError>)
      returns (r: Result<seq<string>, PyError>)
      ensures r == Retrieved(client.collections, collectionName, query, k, search)
    {
      if collectionName !in client.collections {
        return Ok([]);
      }
      var collection := client.collections[collectionName];
      var results := search(collection, query, k);
      if results.Err? {
        return Err(results.error);
      }
      if results.value != [] {
        return Ok(results.value[0]);
      }
      return Ok([]);
    }
  }

  /** The module-level `_rag_system`. */
  class RagHolder {
    var instance: RagSystem?

    constructor()
      ensures instance == null
    {
      instance := null;
    }

    /** `get_rag_system`: the first call builds the system, and raises when its dependencies
        failed to import (`importError` holds that failure); every later call returns the
        same instance. */
    method GetRagSystem(importError: Option<string>, client: Client) returns (r: Result<RagSystem, PyError>)
      modifies this
      ensures old(instance) != null ==> r == Ok(old(instance)) && instance == old(instance)
      ensures old(instance) == null && importError.Some? ==>
                r == Err(ImportError("Required dependencies not available: " + importError.value))
                && instance == null
      ensures old(instance) == null && importError.None? ==>
                r.Ok? && fresh(r.value) && r.value.client == client
                && r.value.collectionName == CollectionName && instance == r.value
    {
      if instance == null {
        if importError.Some? {
          return Err(ImportError("Required dependencies not available: " + importError.value));
        }
        instance := new RagSystem(client);
      }
      r := Ok(instance);
    }
  }
}
