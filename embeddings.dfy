/** Collecting one embedding per paragraph of the loaded files, plus the
    question's: cached files contribute their stored vectors; the paragraphs of
    the other files and the question go to the embedding service in one batch,
    and the new vectors are both cached per file and spliced into the
    placeholders, in order. */
module Embeddings {
  import opened Wrappers
  import opened Seqs
  import opened FileTypes
  import opened RankingTypes
  import opened Session
  import opened Cache

  /** The embedding service: given texts, their vectors in the same order, or a failure. */
  type Embedder = seq<string> -> Option<seq<Vec>>

  /** The service's contract for one batch: a successful answer has one vector per text. */
  predicate AnswersBatch(embed: Embedder, texts: seq<string>)
  {
    embed(texts).Some? ==> |embed(texts).value| == |texts|
  }

  predicate IsCached(m: Store, file: ParsedFile)
  {
    EmbeddingsKey(file.name) in m
  }

  /** The vectors stored for `file`, or none when its entry is missing or holds something else. */
  function VectorsAt(m: Store, file: ParsedFile): seq<Vec>
  {
    if IsCached(m, file) && m[EmbeddingsKey(file.name)].Embeddings? then m[EmbeddingsKey(file.name)].vectors else []
  }

  /** Reading a cached entry requires that it holds embeddings. */
  predicate CachedEntriesHoldEmbeddings(m: Store, files: seq<ParsedFile>)
  {
    forall f :: f in files && IsCached(m, f) ==> m[EmbeddingsKey(f.name)].Embeddings?
  }

  /** Every cached file has exactly one stored vector per paragraph. */
  predicate CachedCountsMatch(m: Store, files: seq<ParsedFile>)
  {
    forall f :: f in files && IsCached(m, f) ==> |VectorsAt(m, f)| == |f.paragraphs|
  }

  /** All paragraphs of `files`, file by file. */
  function Paragraphs(files: seq<ParsedFile>): seq<string>
  {
    if files == [] then [] else Paragraphs(Init(files)) + Last(files).paragraphs
  }

  function Present(vectors: seq<Vec>): (r: seq<Option<Vec>>)
    ensures |r| == |vectors| && forall i :: 0 <= i < |r| ==> r[i] == Some(vectors[i])
  {
    if vectors == [] then [] else Present(Init(vectors)) + [Some(Last(vectors))]
  }

  /** `[None] * n`. */
  function Placeholders(n: nat): (r: seq<Option<Vec>>)
    ensures |r| == n && forall i :: 0 <= i < n ==> r[i] == None
  {
    if n == 0 then [] else Placeholders(n - 1) + [None]
  }

  /** The embedding list before the service is asked: cached vectors, or one placeholder per paragraph. */
  function Slots(m: Store, files: seq<ParsedFile>): seq<Option<Vec>>
  {
    if files == [] then []
    else
      var last := Last(files);
      Slots(m, Init(files)) + (if IsCached(m, last) then Present(VectorsAt(m, last)) else Placeholders(|last.paragraphs|))
  }

  /** The files without cached embeddings, in order. */
  function Uncached(m: Store, files: seq<ParsedFile>): seq<ParsedFile>
  {
    if files == [] then [] else Uncached(m, Init(files)) + (if IsCached(m, Last(files)) then [] else [Last(files)])
  }

  /** The texts sent to the service: the uncached files' paragraphs, then the question. */
  function Batch(m: Store, files: seq<ParsedFile>, question: string): seq<string>
  {
    Paragraphs(Uncached(m, files)) + [question]
  }

  function NoneCount(slots: seq<Option<Vec>>): nat
  {
    if slots == [] then 0 else NoneCount(Init(slots)) + (if Last(slots).None? then 1 else 0)
  }

  /** Each placeholder replaced, left to right, by the next unused newVectors vector. */
  function Fill(slots: seq<Option<Vec>>, newVectors: seq<Vec>): (r: seq<Vec>)
    requires NoneCount(slots) <= |newVectors|
    ensures |r| == |slots|
  {
    if slots == [] then []
    else Fill(Init(slots), newVectors) + [if Last(slots).None? then newVectors[NoneCount(Init(slots))] else Last(slots).value]
  }

  /** The store after writing, file by file, each uncached file's consecutive chunk of newVectors vectors. */
  function CacheMissing(m: Store, uncached: seq<ParsedFile>, newVectors: seq<Vec>): Store
    requires |Paragraphs(uncached)| <= |newVectors|
  {
    if uncached == [] then m
    else
      var start := |Paragraphs(Init(uncached))|;
      CacheMissing(m, Init(uncached), newVectors)[EmbeddingsKey(Last(uncached).name) :=
        Embeddings(newVectors[start..start + |Last(uncached).paragraphs|])]
  }

  lemma {:induction false} NoneCountAppend(a: seq<Option<Vec>>, b: seq<Option<Vec>>)
    ensures NoneCount(a + b) == NoneCount(a) + NoneCount(b)
  {
    if b != [] {
      assert Init(a + b) == a + Init(b);
      NoneCountAppend(a, Init(b));
    } else {
      assert a + b == a;
    }
  }

  lemma {:induction false} NoneCountPresent(vectors: seq<Vec>)
    ensures NoneCount(Present(vectors)) == 0
  {
    if vectors != [] {
      assert Init(Present(vectors)) == Present(Init(vectors));
      NoneCountPresent(Init(vectors));
    }
  }

  lemma {:induction false} NoneCountPlaceholders(n: nat)
    ensures NoneCount(Placeholders(n)) == n
  {
    if n > 0 {
      assert Init(Placeholders(n)) == Placeholders(n - 1);
      NoneCountPlaceholders(n - 1);
    }
  }

  lemma {:induction false} NoneCountPrefix(slots: seq<Option<Vec>>, k: nat)
    requires k <= |slots|
    ensures NoneCount(slots[..k]) <= NoneCount(slots)
  {
    if k < |slots| {
      assert slots[..|slots| - 1][..k] == slots[..k];
      NoneCountPrefix(Init(slots), k);
    } else {
      assert slots[..k] == slots;
    }
  }

  /** The placeholders are exactly as many as the paragraphs sent for embedding. */
  lemma {:induction false} NoneCountIsUncachedParagraphs(m: Store, files: seq<ParsedFile>)
    ensures NoneCount(Slots(m, files)) == |Paragraphs(Uncached(m, files))|
  {
    if files != [] {
      NoneCountIsUncachedParagraphs(m, Init(files));
      var last := Last(files);
      if IsCached(m, last) {
        assert Slots(m, files) == Slots(m, Init(files)) + Present(VectorsAt(m, last));
        NoneCountAppend(Slots(m, Init(files)), Present(VectorsAt(m, last)));
        NoneCountPresent(VectorsAt(m, last));
        assert Uncached(m, files) == Uncached(m, Init(files));
      } else {
        assert Slots(m, files) == Slots(m, Init(files)) + Placeholders(|last.paragraphs|);
        NoneCountAppend(Slots(m, Init(files)), Placeholders(|last.paragraphs|));
        NoneCountPlaceholders(|last.paragraphs|);
        assert Init(Uncached(m, Init(files)) + [last]) == Uncached(m, Init(files));
      }
    }
  }

  /** With matching cached counts there is one slot per paragraph. */
  lemma {:induction false} SlotsCoverEveryParagraph(m: Store, files: seq<ParsedFile>)
    requires CachedCountsMatch(m, files)
    ensures |Slots(m, files)| == |Paragraphs(files)|
  {
    if files != [] {
      assert forall f :: f in Init(files) ==> f in files;
      SlotsCoverEveryParagraph(m, Init(files));
    }
  }

  lemma {:induction false} ParagraphsPrefix(files: seq<ParsedFile>, k: nat)
    requires k < |files|
    ensures Paragraphs(files[..k + 1]) == Paragraphs(files[..k]) + files[k].paragraphs
    ensures |Paragraphs(files[..k + 1])| <= |Paragraphs(files)|
  {
    assert files[..k + 1][..k] == files[..k];
    if k + 1 < |files| {
      assert files[..|files| - 1][..k + 1] == files[..k + 1];
      ParagraphsPrefix(Init(files), k);
    } else {
      assert files[..k + 1] == files;
    }
  }

  /** The fill keeps every present slot and takes the newVectors vectors in order for the placeholders. */
  lemma {:induction false} FillKeepsPresentAndFillsInOrder(slots: seq<Option<Vec>>, newVectors: seq<Vec>)
    requires NoneCount(slots) <= |newVectors|
    ensures forall i :: 0 <= i < |slots| && slots[i].Some? ==> Fill(slots, newVectors)[i] == slots[i].value
    ensures forall i :: 0 <= i < |slots| && slots[i].None? ==>
      NoneCount(slots[..i]) < |newVectors| && Fill(slots, newVectors)[i] == newVectors[NoneCount(slots[..i])]
  {
    if slots != [] {
      FillKeepsPresentAndFillsInOrder(Init(slots), newVectors);
      var n := |slots| - 1;
      assert slots[..n] == Init(slots);
      forall i | 0 <= i < n
        ensures slots[..i] == Init(slots)[..i]
      {
      }
    }
  }

  lemma {:induction false} FillAppendPresent(a: seq<Option<Vec>>, vectors: seq<Vec>, newVectors: seq<Vec>)
    requires NoneCount(a) <= |newVectors|
    ensures NoneCount(a + Present(vectors)) == NoneCount(a)
    ensures Fill(a + Present(vectors), newVectors) == Fill(a, newVectors) + vectors
  {
    NoneCountAppend(a, Present(vectors));
    NoneCountPresent(vectors);
    if vectors != [] {
      var shorter := Init(vectors);
      assert a + Present(vectors) == (a + Present(shorter)) + [Some(Last(vectors))];
      assert Init(a + Present(vectors)) == a + Present(shorter);
      FillAppendPresent(a, shorter, newVectors);
      assert vectors == shorter + [Last(vectors)];
    } else {
      assert a + Present(vectors) == a;
    }
  }

  lemma {:induction false} FillAppendPlaceholders(a: seq<Option<Vec>>, n: nat, newVectors: seq<Vec>)
    requires NoneCount(a) + n <= |newVectors|
    ensures NoneCount(a + Placeholders(n)) == NoneCount(a) + n
    ensures Fill(a + Placeholders(n), newVectors) == Fill(a, newVectors) + newVectors[NoneCount(a)..NoneCount(a) + n]
  {
    NoneCountAppend(a, Placeholders(n));
    NoneCountPlaceholders(n);
    if n == 0 {
      assert a + Placeholders(n) == a;
    } else {
      FillAppendPlaceholders(a, n - 1, newVectors);
      FillAppendPlaceholdersStep(a, n, newVectors, NoneCount(a));
    }
  }

  lemma FillAppendPlaceholdersStep(a: seq<Option<Vec>>, n: nat, newVectors: seq<Vec>, c: nat)
    requires 0 < n && NoneCount(a) == c && c + n <= |newVectors|
    requires NoneCount(a + Placeholders(n - 1)) == c + n - 1
    requires Fill(a + Placeholders(n - 1), newVectors) == Fill(a, newVectors) + newVectors[c..c + n - 1]
    ensures NoneCount(a + Placeholders(n)) == c + n
    ensures Fill(a + Placeholders(n), newVectors) == Fill(a, newVectors) + newVectors[c..c + n]
  {
    var x := a + Placeholders(n - 1);
    PlaceholdersSnoc(a, n);
    FillSnocPlaceholder(x, newVectors, c + n - 1);
    SliceSnoc(newVectors, c, c + n);
    ConcatAssociative(Fill(a, newVectors), newVectors[c..c + n - 1], [newVectors[c + n - 1]]);
  }

  lemma PlaceholdersSnoc(a: seq<Option<Vec>>, n: nat)
    requires 0 < n
    ensures a + Placeholders(n) == (a + Placeholders(n - 1)) + [None]
  {
    assert Placeholders(n) == Placeholders(n - 1) + [None];
  }

  lemma FillSnocPlaceholder(x: seq<Option<Vec>>, newVectors: seq<Vec>, k: nat)
    requires NoneCount(x) == k && k < |newVectors|
    ensures NoneCount(x + [None]) == k + 1
    ensures Fill(x + [None], newVectors) == Fill(x, newVectors) + [newVectors[k]]
  {
    assert Init(x + [None]) == x;
  }

  lemma {:induction false} UncachedAreAmongFiles(m: Store, files: seq<ParsedFile>)
    ensures forall u :: u in Uncached(m, files) ==> u in files && !IsCached(m, u)
  {
    if files != [] {
      UncachedAreAmongFiles(m, Init(files));
    }
  }

  lemma {:induction false} CacheMissingFrame(m: Store, uncached: seq<ParsedFile>, newVectors: seq<Vec>, key: string)
    requires |Paragraphs(uncached)| <= |newVectors|
    requires forall u :: u in uncached ==> EmbeddingsKey(u.name) != key
    ensures key in CacheMissing(m, uncached, newVectors) <==> key in m
    ensures key in m ==> CacheMissing(m, uncached, newVectors)[key] == m[key]
  {
    if uncached != [] {
      CacheMissingFrame(m, Init(uncached), newVectors, key);
    }
  }

  lemma {:induction false} CacheMissingKeys(m: Store, uncached: seq<ParsedFile>, newVectors: seq<Vec>)
    requires |Paragraphs(uncached)| <= |newVectors|
    ensures forall k :: k in m ==> k in CacheMissing(m, uncached, newVectors)
    ensures forall u :: u in uncached ==> EmbeddingsKey(u.name) in CacheMissing(m, uncached, newVectors)
  {
    if uncached != [] {
      CacheMissingKeys(m, Init(uncached), newVectors);
    }
  }

  /** The vectors a reader of the cache gets for `files`, file after file. */
  function CachedView(m: Store, files: seq<ParsedFile>): seq<Vec>
  {
    if files == [] then [] else CachedView(m, Init(files)) + VectorsAt(m, Last(files))
  }

  lemma {:induction false} CachedViewFrame(m: Store, m': Store, files: seq<ParsedFile>)
    requires forall f :: f in files ==> VectorsAt(m, f) == VectorsAt(m', f)
    ensures CachedView(m, files) == CachedView(m', files)
  {
    if files != [] {
      CachedViewFrame(m, m', Init(files));
    }
  }

  lemma FrontOfDistinctNames(files: seq<ParsedFile>)
    requires files != [] && Distinct(ParsedNames(files))
    ensures Distinct(ParsedNames(Init(files)))
    ensures forall f :: f in Init(files) ==> EmbeddingsKey(f.name) != EmbeddingsKey(Last(files).name)
  {
    var front, last := Init(files), Last(files);
    assert forall i :: 0 <= i < |front| ==> ParsedNames(files)[i] == ParsedNames(front)[i];
    forall f | f in front
      ensures EmbeddingsKey(f.name) != EmbeddingsKey(last.name)
    {
      var i :| 0 <= i < |front| && front[i] == f;
      assert ParsedNames(files)[i] != ParsedNames(files)[|files| - 1];
      EmbeddingsKeySharedIffSameName(f, last);
    }
  }

  /** The step of `FillSlotsMatchesCache` for a cached last file. */
  lemma CachedLastStep(m: Store, files: seq<ParsedFile>, newVectors: seq<Vec>)
    requires files != [] && IsCached(m, Last(files))
    requires |Paragraphs(Uncached(m, Init(files)))| <= |newVectors|
    requires NoneCount(Slots(m, Init(files))) <= |newVectors|
    requires forall f :: f in Uncached(m, Init(files)) ==> EmbeddingsKey(f.name) != EmbeddingsKey(Last(files).name)
    requires Fill(Slots(m, Init(files)), newVectors) == CachedView(CacheMissing(m, Uncached(m, Init(files)), newVectors), Init(files))
    ensures |Paragraphs(Uncached(m, files))| <= |newVectors|
    ensures NoneCount(Slots(m, files)) <= |newVectors|
    ensures Fill(Slots(m, files), newVectors) == CachedView(CacheMissing(m, Uncached(m, files), newVectors), files)
  {
    var front, last := Init(files), Last(files);
    var u := Uncached(m, front);
    assert Uncached(m, files) == u;
    FillAppendPresent(Slots(m, front), VectorsAt(m, last), newVectors);
    var c := CacheMissing(m, u, newVectors);
    CacheMissingFrame(m, u, newVectors, EmbeddingsKey(last.name));
    assert VectorsAt(c, last) == VectorsAt(m, last);
  }

  lemma CacheMissingSnoc(m: Store, uncached: seq<ParsedFile>, file: ParsedFile, newVectors: seq<Vec>)
    requires |Paragraphs(uncached)| + |file.paragraphs| <= |newVectors|
    ensures Paragraphs(uncached + [file]) == Paragraphs(uncached) + file.paragraphs
    ensures CacheMissing(m, uncached + [file], newVectors) ==
      CacheMissing(m, uncached, newVectors)[EmbeddingsKey(file.name) :=
        Embeddings(newVectors[|Paragraphs(uncached)|..|Paragraphs(uncached)| + |file.paragraphs|])]
  {
    assert Init(uncached + [file]) == uncached;
  }

  /** Writing the next uncached file's chunk appends exactly that chunk to the view of the files. */
  lemma CacheMissingSnocView(m: Store, front: seq<ParsedFile>, uncached: seq<ParsedFile>, file: ParsedFile, newVectors: seq<Vec>)
    requires |Paragraphs(uncached)| + |file.paragraphs| <= |newVectors|
    requires forall f :: f in front ==> EmbeddingsKey(f.name) != EmbeddingsKey(file.name)
    ensures |Paragraphs(uncached + [file])| <= |newVectors|
    ensures CachedView(CacheMissing(m, uncached + [file], newVectors), front + [file]) ==
      CachedView(CacheMissing(m, uncached, newVectors), front) +
        newVectors[|Paragraphs(uncached)|..|Paragraphs(uncached)| + |file.paragraphs|]
  {
    var c := CacheMissing(m, uncached, newVectors);
    CacheMissingSnoc(m, uncached, file, newVectors);
    var c' := CacheMissing(m, uncached + [file], newVectors);
    forall f | f in front
      ensures VectorsAt(c, f) == VectorsAt(c', f)
    {
    }
    CachedViewFrame(c, c', front);
    assert Init(front + [file]) == front;
  }

  /** Placeholders for an uncached last file take the next chunk of fresh vectors, from `start` on. */
  lemma SlotsSnocUncached(m: Store, files: seq<ParsedFile>, newVectors: seq<Vec>, start: nat)
    requires files != [] && !IsCached(m, Last(files))
    requires NoneCount(Slots(m, Init(files))) == start
    requires start + |Last(files).paragraphs| <= |newVectors|
    ensures NoneCount(Slots(m, files)) == start + |Last(files).paragraphs|
    ensures Fill(Slots(m, files), newVectors) == Fill(Slots(m, Init(files)), newVectors) +
      newVectors[start..start + |Last(files).paragraphs|]
  {
    assert Slots(m, files) == Slots(m, Init(files)) + Placeholders(|Last(files).paragraphs|);
    FillAppendPlaceholders(Slots(m, Init(files)), |Last(files).paragraphs|, newVectors);
  }

  /** Caching an uncached last file's chunk, from `start` on, appends that chunk to the cached view. */
  lemma ViewSnocUncached(m: Store, files: seq<ParsedFile>, newVectors: seq<Vec>, start: nat)
    requires files != [] && !IsCached(m, Last(files))
    requires |Paragraphs(Uncached(m, Init(files)))| == start
    requires start + |Last(files).paragraphs| <= |newVectors|
    requires forall f :: f in Init(files) ==> EmbeddingsKey(f.name) != EmbeddingsKey(Last(files).name)
    ensures |Paragraphs(Uncached(m, files))| <= |newVectors|
    ensures CachedView(CacheMissing(m, Uncached(m, files), newVectors), files) ==
      CachedView(CacheMissing(m, Uncached(m, Init(files)), newVectors), Init(files)) +
        newVectors[start..start + |Last(files).paragraphs|]
  {
    var front, last := Init(files), Last(files);
    assert Uncached(m, files) == Uncached(m, front) + [last];
    CacheMissingSnocView(m, front, Uncached(m, front), last, newVectors);
    assert files == front + [last];
  }

  /** The step of `FillSlotsMatchesCache` for an uncached last file. */
  lemma UncachedLastStep(m: Store, files: seq<ParsedFile>, newVectors: seq<Vec>)
    requires files != [] && !IsCached(m, Last(files))
    requires |Paragraphs(Uncached(m, Init(files)))| + |Last(files).paragraphs| <= |newVectors|
    requires NoneCount(Slots(m, Init(files))) == |Paragraphs(Uncached(m, Init(files)))|
    requires forall f :: f in Init(files) ==> EmbeddingsKey(f.name) != EmbeddingsKey(Last(files).name)
    requires Fill(Slots(m, Init(files)), newVectors) == CachedView(CacheMissing(m, Uncached(m, Init(files)), newVectors), Init(files))
    ensures |Paragraphs(Uncached(m, files))| <= |newVectors|
    ensures NoneCount(Slots(m, files)) <= |newVectors|
    ensures Fill(Slots(m, files), newVectors) == CachedView(CacheMissing(m, Uncached(m, files), newVectors), files)
  {
    var start := |Paragraphs(Uncached(m, Init(files)))|;
    SlotsSnocUncached(m, files, newVectors, start);
    ViewSnocUncached(m, files, newVectors, start);
  }

  lemma {:induction false} FillSlotsMatchesCache(m: Store, files: seq<ParsedFile>, newVectors: seq<Vec>)
    requires Distinct(ParsedNames(files))
    requires |Paragraphs(Uncached(m, files))| <= |newVectors|
    ensures NoneCount(Slots(m, files)) <= |newVectors|
    ensures Fill(Slots(m, files), newVectors) == CachedView(CacheMissing(m, Uncached(m, files), newVectors), files)
  {
    NoneCountIsUncachedParagraphs(m, files);
    if files != [] {
      var front := Init(files);
      FrontOfDistinctNames(files);
      UncachedAreAmongFiles(m, front);
      NoneCountIsUncachedParagraphs(m, front);
      if IsCached(m, Last(files)) {
        assert Uncached(m, files) == Uncached(m, front);
        FillSlotsMatchesCache(m, front, newVectors);
        CachedLastStep(m, files, newVectors);
      } else {
        assert Uncached(m, files) == Uncached(m, front) + [Last(files)];
        assert Init(Uncached(m, front) + [Last(files)]) == Uncached(m, front);
        FillSlotsMatchesCache(m, front, newVectors);
        UncachedLastStep(m, files, newVectors);
      }
    }
  }

  /** What the embedding step returns: the filled list followed by the question's vector, or nothing when the service fails. */
  function EmbeddingsOutcome(m: Store, files: seq<ParsedFile>, question: string, embed: Embedder): (r: Option<seq<Vec>>)
    requires AnswersBatch(embed, Batch(m, files, question))
    ensures r.None? <==> embed(Batch(m, files, question)).None?
    ensures r.Some? ==> |r.value| == |Slots(m, files)| + 1 &&
                        Last(r.value) == Last(embed(Batch(m, files, question)).value)
  {
    match embed(Batch(m, files, question))
    case None => None
    case Some(vectors) =>
      NoneCountIsUncachedParagraphs(m, files);
      Some(Fill(Slots(m, files), Init(vectors)) + [Last(vectors)])
  }

  /** The store after the embedding step: unchanged on failure, otherwise each uncached file's new vectors written back. */
  function StoreAfter(m: Store, files: seq<ParsedFile>, question: string, embed: Embedder): Store
    requires AnswersBatch(embed, Batch(m, files, question))
  {
    match embed(Batch(m, files, question))
    case None => m
    case Some(vectors) => CacheMissing(m, Uncached(m, files), Init(vectors))
  }

  /** With matching cached counts, a successful step yields one vector per paragraph plus the question's, last. */
  lemma OutcomeHasOneVectorPerParagraphAndQuestionLast(m: Store, files: seq<ParsedFile>, question: string, embed: Embedder)
    requires AnswersBatch(embed, Batch(m, files, question))
    requires CachedCountsMatch(m, files)
    requires embed(Batch(m, files, question)).Some?
    ensures |EmbeddingsOutcome(m, files, question, embed).value| == |Paragraphs(files)| + 1
    ensures Last(EmbeddingsOutcome(m, files, question, embed).value) == Last(embed(Batch(m, files, question)).value)
  {
    SlotsCoverEveryParagraph(m, files);
  }

  /** Splice correctness: with distinct file names, the returned paragraph vectors are exactly
      what the updated cache holds for the files, file after file. */
  lemma SpliceAgreesWithCache(m: Store, files: seq<ParsedFile>, question: string, embed: Embedder)
    requires AnswersBatch(embed, Batch(m, files, question))
    requires Distinct(ParsedNames(files))
    requires embed(Batch(m, files, question)).Some?
    ensures Init(EmbeddingsOutcome(m, files, question, embed).value) == CachedView(StoreAfter(m, files, question, embed), files)
  {
    var vectors := embed(Batch(m, files, question)).value;
    NoneCountIsUncachedParagraphs(m, files);
    FillSlotsMatchesCache(m, files, Init(vectors));
    var r := EmbeddingsOutcome(m, files, question, embed).value;
    assert Init(r) == Fill(Slots(m, files), Init(vectors));
  }

  /** After a successful step every file is cached, so a later request sends only its question. */
  lemma {:induction false} SecondRequestEmbedsOnlyTheQuestion(m: Store, files: seq<ParsedFile>, question: string, embed: Embedder, next: string)
    requires AnswersBatch(embed, Batch(m, files, question))
    requires embed(Batch(m, files, question)).Some?
    ensures Batch(StoreAfter(m, files, question, embed), files, next) == [next]
  {
    var vectors := embed(Batch(m, files, question)).value;
    NoneCountIsUncachedParagraphs(m, files);
    var m' := StoreAfter(m, files, question, embed);
    CacheMissingKeys(m, Uncached(m, files), Init(vectors));
    UncachedAreAmongFiles(m, files);
    forall f | f in files && !IsCached(m, f)
      ensures IsCached(m', f)
    {
      if f !in Uncached(m, files) {
        NotUncachedIsCached(m, files, f);
      }
    }
    AllCachedNothingUncached(m, m', files);
  }

  lemma {:induction false} NotUncachedIsCached(m: Store, files: seq<ParsedFile>, f: ParsedFile)
    requires f in files && f !in Uncached(m, files)
    ensures IsCached(m, f)
  {
    if f != Last(files) {
      assert f in Init(files) by {
        assert files == Init(files) + [Last(files)];
      }
      NotUncachedIsCached(m, Init(files), f);
    }
  }

  lemma {:induction false} AllCachedNothingUncached(m: Store, m': Store, files: seq<ParsedFile>)
    requires forall k :: k in m ==> k in m'
    requires forall f :: f in files && !IsCached(m, f) ==> IsCached(m', f)
    ensures Uncached(m', files) == []
  {
    if files != [] {
      AllCachedNothingUncached(m, m', Init(files));
    }
  }

  /** Service failure leaves nothing to rank and the cache unchanged. */
  lemma ServiceFailureYieldsNothing(m: Store, files: seq<ParsedFile>, question: string, embed: Embedder)
    requires embed(Batch(m, files, question)).None?
    ensures EmbeddingsOutcome(m, files, question, embed).None?
    ensures StoreAfter(m, files, question, embed) == m
  {
  }

  /** Pops `n` vectors off the front of the queue, one at a time. */
  method PopLeft(queue: seq<Vec>, n: nat) returns (popped: seq<Vec>, rest: seq<Vec>)
    requires n <= |queue|
    ensures popped == queue[..n] && rest == queue[n..]
  {
    popped, rest := [], queue;
    for j := 0 to n
      invariant popped == queue[..j] && rest == queue[j..]
    {
      popped := popped + [rest[0]];
      rest := rest[1..];
    }
  }

  method CacheMissingEmbeddings(session: SessionState, uncached: seq<ParsedFile>, missing: seq<Vec>)
    requires |Paragraphs(uncached)| <= |missing|
    modifies session
    ensures session.entries == CacheMissing(old(session.entries), uncached, missing)
  {
    var queue := missing;
    for i := 0 to |uncached|
      invariant |Paragraphs(uncached[..i])| <= |missing|
      invariant queue == missing[|Paragraphs(uncached[..i])|..]
      invariant session.entries == CacheMissing(old(session.entries), uncached[..i], missing)
    {
      var file := uncached[i];
      ParagraphsPrefix(uncached, i);
      ghost var start := |Paragraphs(uncached[..i])|;
      var fileEmbeddings;
      fileEmbeddings, queue := PopLeft(queue, |file.paragraphs|);
      assert fileEmbeddings == missing[start..start + |file.paragraphs|];
      CacheParsedFileEmbeddings(session, file, fileEmbeddings);
      assert uncached[..i + 1][..i] == uncached[..i];
    }
    assert uncached[..|uncached|] == uncached;
  }

  method PopulateWithMissingEmbeddings(embeddings: array<Option<Vec>>, missing: seq<Vec>)
    requires NoneCount(embeddings[..]) <= |missing|
    modifies embeddings
    ensures forall i :: 0 <= i < embeddings.Length ==> embeddings[i] == Some(Fill(old(embeddings[..]), missing)[i])
  {
    ghost var slots := embeddings[..];
    var queue := missing;
    for i := 0 to embeddings.Length
      invariant NoneCount(slots[..i]) <= NoneCount(slots)
      invariant queue == missing[NoneCount(slots[..i])..]
      invariant forall k :: i <= k < embeddings.Length ==> embeddings[k] == slots[k]
      invariant forall k :: 0 <= k < i ==> embeddings[k] == Some(Fill(slots[..i], missing)[k])
    {
      assert slots[..i + 1][..i] == slots[..i];
      NoneCountPrefix(slots, i + 1);
      if embeddings[i].None? {
        embeddings[i] := Some(queue[0]);
        queue := queue[1..];
      }
    }
    assert slots[..embeddings.Length] == slots;
  }

  /** The first pass over the files: cached vectors or placeholders, and the files still to embed. */
  method CollectSlots(session: SessionState, files: seq<ParsedFile>) returns (slots: seq<Option<Vec>>, withoutEmbeddings: seq<ParsedFile>)
    requires CachedEntriesHoldEmbeddings(session.entries, files)
    ensures slots == Slots(session.entries, files)
    ensures withoutEmbeddings == Uncached(session.entries, files)
  {
    slots := [];
    withoutEmbeddings := [];
    for i := 0 to |files|
      invariant slots == Slots(session.entries, files[..i])
      invariant withoutEmbeddings == Uncached(session.entries, files[..i])
    {
      assert files[..i + 1][..i] == files[..i];
      var file := files[i];
      if ParsedFileEmbeddingsAreCached(session, file) {
        slots := slots + Present(GetParsedFileEmbeddingsFromCache(session, file));
      } else {
        slots := slots + Placeholders(|file.paragraphs|);
        withoutEmbeddings := withoutEmbeddings + [file];
      }
    }
    assert files[..|files|] == files;
  }

  /** The list of slots as a mutable buffer, populated in place, then read back. */
  method FillSlots(slots: seq<Option<Vec>>, missing: seq<Vec>) returns (values: seq<Vec>)
    requires NoneCount(slots) <= |missing|
    ensures values == Fill(slots, missing)
  {
    var buffer := new Option<Vec>[|slots|](k requires 0 <= k < |slots| => slots[k]);
    assert buffer[..] == slots;
    PopulateWithMissingEmbeddings(buffer, missing);
    values := seq(buffer.Length, k requires 0 <= k < buffer.Length && buffer[k].Some? reads buffer => buffer[k].value);
  }

  method GetEmbeddings(session: SessionState, files: seq<ParsedFile>, question: string, embed: Embedder)
    returns (embeddings: Option<seq<Vec>>)
    requires CachedEntriesHoldEmbeddings(session.entries, files)
    requires AnswersBatch(embed, Batch(session.entries, files, question))
    modifies session
    ensures embeddings == EmbeddingsOutcome(old(session.entries), files, question, embed)
    ensures session.entries == StoreAfter(old(session.entries), files, question, embed)
  {
    var slots, withoutEmbeddings := CollectSlots(session, files);
    var texts := Paragraphs(withoutEmbeddings) + [question];
    var response := embed(texts);
    if response.None? {
      return None;
    }
    var newEmbeddings := response.value;
    var missing := newEmbeddings[..|newEmbeddings| - 1];
    var questionEmbedding := newEmbeddings[|newEmbeddings| - 1];
    NoneCountIsUncachedParagraphs(session.entries, files);
    CacheMissingEmbeddings(session, withoutEmbeddings, missing);
    var values := FillSlots(slots, missing);
    embeddings := Some(values + [questionEmbedding]);
  }
}
