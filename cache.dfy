/** The session cache for files, paragraph embeddings and answers. Every key
    scheme writes into the same session map. */
module Cache {
  import opened Seqs
  import opened FileTypes
  import opened RankingTypes
  import opened Session

  const EmbeddingsSuffix := "_embeddings"

  /** Files are stored under their bare name. */
  function FileKey(name: string): string
  {
    name
  }

  /** Embeddings are keyed by the parsed file's name alone. */
  function EmbeddingsKey(name: string): string
  {
    name + EmbeddingsSuffix
  }

  /** The store after writing `files` one after the other; a later file with the same name wins. */
  function StoreFiles(m: Store, files: seq<File>): (r: Store)
    ensures r.Keys == m.Keys + (set f | f in files :: FileKey(f.name))
    ensures forall k :: k in m && (forall f :: f in files ==> FileKey(f.name) != k) ==> r[k] == m[k]
  {
    if files == [] then m
    else StoreFiles(m, Init(files))[FileKey(Last(files).name) := FileBytes(Last(files).value)]
  }

  method CacheFile(session: SessionState, file: File)
    modifies session
    ensures session.entries == old(session.entries)[FileKey(file.name) := FileBytes(file.value)]
    ensures GetFileFromCache(session, file.name) == file
  {
    session.entries := session.entries[FileKey(file.name) := FileBytes(file.value)];
  }

  method CacheFiles(session: SessionState, files: seq<File>)
    modifies session
    ensures session.entries == StoreFiles(old(session.entries), files)
  {
    for i := 0 to |files|
      invariant session.entries == StoreFiles(old(session.entries), files[..i])
    {
      assert files[..i + 1][..i] == files[..i];
      CacheFile(session, files[i]);
    }
    assert files[..|files|] == files;
  }

  /** Reading a file requires that its key holds file bytes (a missing key raises in the source). */
  function GetFileFromCache(session: SessionState, name: string): (file: File)
    reads session
    requires FileKey(name) in session.entries && session.entries[FileKey(name)].FileBytes?
    ensures file.name == name && session.entries[FileKey(name)] == FileBytes(file.value)
  {
    File(name, session.entries[FileKey(name)].bytes)
  }

  function GetFilesFromCache(session: SessionState, names: seq<string>): (files: seq<File>)
    reads session
    requires forall n :: n in names ==> FileKey(n) in session.entries && session.entries[FileKey(n)].FileBytes?
    ensures |files| == |names|
    ensures forall i :: 0 <= i < |names| ==> files[i] == GetFileFromCache(session, names[i])
  {
    if names == [] then [] else GetFilesFromCache(session, Init(names)) + [GetFileFromCache(session, Last(names))]
  }

  /** After writing `files`, each name maps to the bytes of the last file of that name. */
  lemma {:induction false} StoreFilesLastWriteWins(m: Store, files: seq<File>, i: nat)
    requires i < |files|
    requires forall j :: i < j < |files| ==> files[j].name != files[i].name
    ensures FileKey(files[i].name) in StoreFiles(m, files)
    ensures StoreFiles(m, files)[FileKey(files[i].name)] == FileBytes(files[i].value)
  {
    if i < |files| - 1 {
      StoreFilesLastWriteWins(m, Init(files), i);
    }
  }

  /** Writing files with distinct names and reading them back by name gives the same files, in order. */
  lemma CachedFilesRoundTrip(session: SessionState, m: Store, files: seq<File>)
    requires Distinct(Names(files))
    requires session.entries == StoreFiles(m, files)
    ensures forall n :: n in Names(files) ==> FileKey(n) in session.entries && session.entries[FileKey(n)].FileBytes?
    ensures GetFilesFromCache(session, Names(files)) == files
  {
    forall i | 0 <= i < |files|
      ensures FileKey(files[i].name) in session.entries && session.entries[FileKey(files[i].name)] == FileBytes(files[i].value)
    {
      StoreFilesLastWriteWins(m, files, i);
    }
  }

  method CacheParsedFileEmbeddings(session: SessionState, file: ParsedFile, embeddings: seq<Vec>)
    modifies session
    ensures session.entries == old(session.entries)[EmbeddingsKey(file.name) := Embeddings(embeddings)]
    ensures ParsedFileEmbeddingsAreCached(session, file)
    ensures GetParsedFileEmbeddingsFromCache(session, file) == embeddings
  {
    session.entries := session.entries[EmbeddingsKey(file.name) := Embeddings(embeddings)];
  }

  predicate ParsedFileEmbeddingsAreCached(session: SessionState, file: ParsedFile)
    reads session
  {
    EmbeddingsKey(file.name) in session.entries
  }

  function GetParsedFileEmbeddingsFromCache(session: SessionState, file: ParsedFile): (embeddings: seq<Vec>)
    reads session
    requires ParsedFileEmbeddingsAreCached(session, file)
    requires session.entries[EmbeddingsKey(file.name)].Embeddings?
    ensures session.entries[EmbeddingsKey(file.name)] == Embeddings(embeddings)
  {
    session.entries[EmbeddingsKey(file.name)].vectors
  }

  method CacheAnswer(session: SessionState, key: string, answer: string)
    modifies session
    ensures session.entries == old(session.entries)[key := Answer(answer)]
    ensures AnswerIsCached(session, key) && GetAnswerFromCache(session, key) == answer
  {
    session.entries := session.entries[key := Answer(answer)];
  }

  predicate AnswerIsCached(session: SessionState, key: string)
    reads session
  {
    key in session.entries
  }

  function GetAnswerFromCache(session: SessionState, key: string): (answer: string)
    reads session
    requires AnswerIsCached(session, key) && session.entries[key].Answer?
    ensures session.entries[key] == Answer(answer)
  {
    session.entries[key].text
  }

  /** `''.join(names + [question])`. */
  function BuildAnswerCacheKey(names: seq<string>, question: string): (key: string)
    ensures EndsWith(key, question)
  {
    EndsWithConcat(Concat(names), question);
    Concat(names) + question
  }

  function Concat(parts: seq<string>): string
  {
    if parts == [] then "" else Concat(Init(parts)) + Last(parts)
  }

  /** The key has no separators: moving the last name to the front of the question gives the same key. */
  lemma {:induction false} AnswerKeyIgnoresBoundaries(names: seq<string>, name: string, question: string)
    ensures BuildAnswerCacheKey(names + [name], question) == BuildAnswerCacheKey(names, name + question)
  {
    assert Init(names + [name]) == names;
    assert Concat(names + [name]) == Concat(names) + name;
  }

  /** Two different (names, question) pairs that share one answer key. */
  lemma AnswerKeyCollision()
    ensures BuildAnswerCacheKey(["a.pdf", "b.pdf"], "X") == BuildAnswerCacheKey(["a.pdf", "b"], ".pdfX")
  {
    AnswerKeyIgnoresBoundaries(["a.pdf"], "b.pdf", "X");
    AnswerKeyIgnoresBoundaries(["a.pdf"], "b", ".pdfX");
    assert ["a.pdf"] + ["b.pdf"] == ["a.pdf", "b.pdf"];
    assert ["a.pdf"] + ["b"] == ["a.pdf", "b"];
    assert "b.pdf" + "X" == "b" + ".pdfX";
  }

  /** Two parsed files share one embeddings entry exactly when their names are equal. */
  lemma EmbeddingsKeySharedIffSameName(a: ParsedFile, b: ParsedFile)
    ensures EmbeddingsKey(a.name) == EmbeddingsKey(b.name) <==> a.name == b.name
  {
    if EmbeddingsKey(a.name) == EmbeddingsKey(b.name) {
      AppendSuffixInjective(a.name, b.name, EmbeddingsSuffix);
    }
  }

  /** All key schemes share one namespace: caching a file named `x_embeddings`
      replaces the embeddings entry of every parsed file named `x`. */
  lemma FileNamedLikeEmbeddingsKeyOverwritesEmbeddings(m: Store, x: string, bytes: seq<byte>, parsed: ParsedFile)
    requires parsed.name == x
    ensures var m' := m[FileKey(x + EmbeddingsSuffix) := FileBytes(bytes)];
      EmbeddingsKey(parsed.name) in m' && m'[EmbeddingsKey(parsed.name)] == FileBytes(bytes)
  {
  }
}
