/** Ranking every paragraph of the loaded files by its similarity to the
    question, and choosing the top paragraphs that form the answer's context. */
module Ranking {
  import opened Wrappers
  import opened Seqs
  import opened FileTypes
  import opened RankingTypes
  import opened Session
  import opened Statistics
  import opened Sorting
  import opened Embeddings

  /** The similarity measure between a paragraph vector and the question vector. */
  type Similarity = (Vec, Vec) -> real

  const ParagraphsInContextMaxCount: nat := 10
  const StdThreshold: real := 0.01

  /** Every (file, paragraph) pair, file by file, paragraph by paragraph. */
  function FilesAndParagraphs(files: seq<ParsedFile>): (r: seq<(ParsedFile, string)>)
    ensures |r| == |Paragraphs(files)|
    ensures forall i :: 0 <= i < |r| ==> r[i].1 == Paragraphs(files)[i]
  {
    if files == [] then [] else FilesAndParagraphs(Init(files)) + PairsOf(Last(files))
  }

  /** Every pair names a loaded file and one of that file's paragraphs. */
  lemma {:induction false} PairsBelongToLoadedFiles(files: seq<ParsedFile>)
    ensures forall i :: 0 <= i < |FilesAndParagraphs(files)| ==>
      FilesAndParagraphs(files)[i].0 in files && FilesAndParagraphs(files)[i].1 in FilesAndParagraphs(files)[i].0.paragraphs
  {
    if files != [] {
      PairsBelongToLoadedFiles(Init(files));
      assert forall f :: f in Init(files) ==> f in files;
    }
  }

  /** One file's paragraphs, each paired with the file. */
  function PairsOf(file: ParsedFile): (r: seq<(ParsedFile, string)>)
    ensures |r| == |file.paragraphs| && forall j :: 0 <= j < |r| ==> r[j] == (file, file.paragraphs[j])
  {
    seq(|file.paragraphs|, j requires 0 <= j < |file.paragraphs| => (file, file.paragraphs[j]))
  }

  /** The pair at paragraph `j` of file `k` names that very file: the files before it
      take up the first `|Paragraphs(files[..k])|` positions. */
  lemma {:induction false} PairsKnowTheirFile(files: seq<ParsedFile>, k: nat, j: nat)
    requires k < |files| && j < |files[k].paragraphs|
    ensures |Paragraphs(files[..k])| + j < |FilesAndParagraphs(files)|
    ensures FilesAndParagraphs(files)[|Paragraphs(files[..k])| + j] == (files[k], files[k].paragraphs[j])
  {
    ParagraphsPrefix(files, k);
    var front := Init(files);
    if k < |files| - 1 {
      assert front[..k] == files[..k] && front[k] == files[k];
      PairsKnowTheirFile(front, k, j);
    } else {
      assert files[..k] == front && Last(files) == files[k];
    }
  }

  function Similarities(paragraphVectors: seq<Vec>, searchVector: Vec, similarity: Similarity): (r: seq<real>)
    ensures |r| == |paragraphVectors|
    ensures forall i :: 0 <= i < |r| ==> r[i] == similarity(paragraphVectors[i], searchVector)
  {
    seq(|paragraphVectors|, i requires 0 <= i < |paragraphVectors| => similarity(paragraphVectors[i], searchVector))
  }

  /** Python's `zip`: pairs up to the shorter input. */
  function Zip(pairs: seq<(ParsedFile, string)>, scores: seq<real>): (r: seq<RankedParagraph>)
    ensures |r| == if |pairs| <= |scores| then |pairs| else |scores|
    ensures forall i :: 0 <= i < |r| ==> r[i] == RankedParagraph(pairs[i].0, pairs[i].1, scores[i])
  {
    var n := if |pairs| <= |scores| then |pairs| else |scores|;
    seq(n, i requires 0 <= i < n => RankedParagraph(pairs[i].0, pairs[i].1, scores[i]))
  }

  /** The unsorted triples: each paragraph with the similarity of its vector to the last (question) vector. */
  function Scored(files: seq<ParsedFile>, embeddings: seq<Vec>, similarity: Similarity): seq<RankedParagraph>
    requires |embeddings| > 0
  {
    Zip(FilesAndParagraphs(files), Similarities(Init(embeddings), Last(embeddings), similarity))
  }

  /** The triples in ascending order of similarity, so the best paragraph is last. */
  function Rank(files: seq<ParsedFile>, embeddings: seq<Vec>, similarity: Similarity): (r: seq<RankedParagraph>)
    requires |embeddings| > 0
    ensures SortedByScore(r)
    ensures multiset(r) == multiset(Scored(files, embeddings, similarity))
  {
    SortByScore(Scored(files, embeddings, similarity))
  }

  /** With one vector per paragraph plus the question's, every paragraph is scored once, in order. */
  lemma RankScoresEveryParagraph(files: seq<ParsedFile>, embeddings: seq<Vec>, similarity: Similarity)
    requires |embeddings| == |Paragraphs(files)| + 1
    ensures |Rank(files, embeddings, similarity)| == |Paragraphs(files)|
    ensures forall i :: 0 <= i < |Paragraphs(files)| ==>
      Scored(files, embeddings, similarity)[i].paragraph == Paragraphs(files)[i] &&
      Scored(files, embeddings, similarity)[i].score == similarity(embeddings[i], Last(embeddings))
  {
    var s := Scored(files, embeddings, similarity);
    assert |Rank(files, embeddings, similarity)| == |multiset(s)|;
  }

  /** Every ranked entry is a paragraph of the file it names, and that file was loaded. */
  lemma RankedParagraphsBelongToTheirFiles(files: seq<ParsedFile>, embeddings: seq<Vec>, similarity: Similarity)
    requires |embeddings| > 0
    ensures forall x :: x in Rank(files, embeddings, similarity) ==> x.file in files && x.paragraph in x.file.paragraphs
  {
    var s := Scored(files, embeddings, similarity);
    PairsBelongToLoadedFiles(files);
    forall x | x in Rank(files, embeddings, similarity)
      ensures x.file in files && x.paragraph in x.file.paragraphs
    {
      assert x in multiset(s);
      var i :| 0 <= i < |s| && s[i] == x;
    }
  }

  /** Ties keep their input order: the sort is stable. */
  lemma RankIsStable(files: seq<ParsedFile>, embeddings: seq<Vec>, similarity: Similarity, v: real)
    requires |embeddings| > 0
    ensures WithScore(Rank(files, embeddings, similarity), v) == WithScore(Scored(files, embeddings, similarity), v)
  {
    SortIsStable(Scored(files, embeddings, similarity), v);
  }

  /** The last ranked entry has the highest similarity of all paragraphs. */
  lemma BestParagraphIsLast(files: seq<ParsedFile>, embeddings: seq<Vec>, similarity: Similarity)
    requires |embeddings| > 0
    requires |Rank(files, embeddings, similarity)| > 0
    ensures forall x :: x in Scored(files, embeddings, similarity) ==> x.score <= Last(Rank(files, embeddings, similarity)).score
  {
    var r := Rank(files, embeddings, similarity);
    forall x | x in Scored(files, embeddings, similarity)
      ensures x.score <= Last(r).score
    {
      assert x in multiset(r);
      var i :| 0 <= i < |r| && r[i] == x;
    }
  }

  /** What the ranking step fails with. */
  datatype RankError = LenOfNone

  /** The ranking step as written: it measures the embeddings before looking at them,
      so a failed embedding request raises instead of yielding `None`. */
  function RankAsWritten(files: seq<ParsedFile>, embeddings: Option<seq<Vec>>, similarity: Similarity): (r: Result<seq<RankedParagraph>, RankError>)
    requires embeddings.Some? ==> |embeddings.value| > 0
    ensures r.Err? <==> embeddings.None?
    ensures r.Ok? ==> r.value == Rank(files, embeddings.value, similarity)
  {
    match embeddings
    case None => Err(LenOfNone)
    case Some(vectors) => Ok(Rank(files, vectors, similarity))
  }

  /** A service failure never reaches the caller as `None`: the as-written step raises. */
  lemma ServiceFailureRaisesAsWritten(files: seq<ParsedFile>, similarity: Similarity)
    ensures RankAsWritten(files, None, similarity) == Err(LenOfNone)
  {
  }

  /** `rank_paragraphs`, with the failed-embedding case returning nothing, as its caller expects. */
  method RankParagraphs(session: SessionState, files: seq<ParsedFile>, question: string, embed: Embedder, similarity: Similarity)
    returns (ranked: Option<seq<RankedParagraph>>)
    requires CachedEntriesHoldEmbeddings(session.entries, files)
    requires AnswersBatch(embed, Batch(session.entries, files, question))
    modifies session
    ensures ranked.None? <==> embed(Batch(old(session.entries), files, question)).None?
    ensures ranked.Some? ==>
      ranked.value == Rank(files, EmbeddingsOutcome(old(session.entries), files, question, embed).value, similarity)
    ensures session.entries == StoreAfter(old(session.entries), files, question, embed)
  {
    var embeddings := GetEmbeddings(session, files, question, embed);
    if embeddings.None? {
      return None;
    }
    ranked := Some(Rank(files, embeddings.value, similarity));
  }

  function Scores(s: seq<RankedParagraph>): (r: seq<real>)
    ensures |r| == |s| && forall i :: 0 <= i < |s| ==> r[i] == s[i].score
  {
    seq(|s|, i requires 0 <= i < |s| => s[i].score)
  }

  /** The stopping test: the sample standard deviation reaches the threshold,
      stated on the variance (both sides non-negative). */
  predicate TooDispersed(xs: seq<real>)
    requires |xs| >= 2
  {
    SampleVariance(xs) >= StdThreshold * StdThreshold
  }

  /** Whether the candidate just below the top `k` would widen the spread too much. */
  predicate NextCandidateTooDispersed(ranked: seq<RankedParagraph>, k: nat)
    requires 1 <= k < |ranked|
  {
    var n := |ranked|;
    TooDispersed([ranked[n - 1 - k].score] + Scores(ranked[n - k..]))
  }

  /** The top `k` paragraphs are the context: each was admitted while the context was
      below the maximum and did not widen the spread too much, and the walk stopped at `k`. */
  predicate IsContextSelection(ranked: seq<RankedParagraph>, k: nat)
  {
    1 <= k <= |ranked| && k <= ParagraphsInContextMaxCount &&
    (forall j :: 1 <= j < k ==> !NextCandidateTooDispersed(ranked, j)) &&
    (k < |ranked| ==> NextCandidateTooDispersed(ranked, k) || k == ParagraphsInContextMaxCount)
  }

  /** At most one context size satisfies the selection rule. */
  lemma ContextSelectionUnique(ranked: seq<RankedParagraph>, k1: nat, k2: nat)
    requires IsContextSelection(ranked, k1) && IsContextSelection(ranked, k2)
    ensures k1 == k2
  {
  }

  /** `choose_paragraphs_for_context`: the pop from the caller's list is returned as `remaining`. */
  method ChooseParagraphsForContext(ranked: seq<RankedParagraph>) returns (context: seq<RankedParagraph>, remaining: seq<RankedParagraph>)
    requires |ranked| > 0
    ensures remaining == Init(ranked)
    ensures 1 <= |context| <= |ranked| && context == ranked[|ranked| - |context|..]
    ensures IsContextSelection(ranked, |context|)
  {
    var n := |ranked|;
    remaining := ranked[..n - 1];
    context := [ranked[n - 1]];
    var i := |remaining|;
    while i > 0
      invariant 0 <= i <= n - 1
      invariant context == ranked[i..] && |context| <= ParagraphsInContextMaxCount
      invariant forall j :: 1 <= j < |context| ==> !NextCandidateTooDispersed(ranked, j)
    {
      var candidate := remaining[i - 1];
      if TooDispersed([candidate.score] + Scores(context)) {
        assert NextCandidateTooDispersed(ranked, |context|);
        break;
      }
      if |context| >= ParagraphsInContextMaxCount {
        break;
      }
      assert !NextCandidateTooDispersed(ranked, |context|);
      assert [candidate] + context == ranked[i - 1..];
      context := [candidate] + context;
      i := i - 1;
    }
  }

  /** A walk stopped by the very first candidate leaves only the best paragraph in the context. */
  lemma FirstStopKeepsOnlyTheTop(ranked: seq<RankedParagraph>)
    requires |ranked| >= 2 && TooDispersed([ranked[|ranked| - 2].score, Last(ranked).score])
    ensures IsContextSelection(ranked, 1)
  {
    assert [ranked[|ranked| - 2].score] + Scores(ranked[|ranked| - 1..]) == [ranked[|ranked| - 2].score, Last(ranked).score];
  }

  /** Scores of 0.95 and 0.90 already spread by more than the threshold (their sample
      standard deviation is about 0.035), so with these two on top only the best is chosen. */
  lemma CloseScoresAreTooDispersed()
    ensures TooDispersed([0.90, 0.95])
  {
  }

  /** Equal scores never stop the walk early: the context is as large as allowed. */
  lemma EqualScoresFillTheContext(ranked: seq<RankedParagraph>, c: real)
    requires |ranked| > 0
    requires forall i :: 0 <= i < |ranked| ==> ranked[i].score == c
    ensures IsContextSelection(ranked, if |ranked| <= ParagraphsInContextMaxCount then |ranked| else ParagraphsInContextMaxCount)
  {
    forall j | 1 <= j < |ranked|
      ensures !NextCandidateTooDispersed(ranked, j)
    {
      var xs := [ranked[|ranked| - 1 - j].score] + Scores(ranked[|ranked| - j..]);
      ConstantHasZeroVariance(xs, c);
    }
  }

  /** On a ranked (ascending) list any top-`k` suffix, and so the context the walk returns,
      holds the best scores: nothing left out scores higher. */
  lemma ContextHoldsTheBestScores(ranked: seq<RankedParagraph>, k: nat)
    requires SortedByScore(ranked) && k <= |ranked|
    ensures forall a, b :: a in ranked[..|ranked| - k] && b in ranked[|ranked| - k..] ==> a.score <= b.score
  {
    var n := |ranked|;
    forall a, b | a in ranked[..n - k] && b in ranked[n - k..]
      ensures a.score <= b.score
    {
      var i :| 0 <= i < n - k && ranked[..n - k][i] == a;
      var j :| 0 <= j < k && ranked[n - k..][j] == b;
      assert ranked[i] == a && ranked[n - k + j] == b;
    }
  }
}
