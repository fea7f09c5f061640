/** A stable sort of ranked paragraphs by ascending score: the behaviour of
    Python's `sorted(..., key=score)`. */
module Sorting {
  import opened Seqs
  import opened RankingTypes

  predicate SortedByScore(s: seq<RankedParagraph>)
  {
    forall i, j :: 0 <= i < j < |s| ==> s[i].score <= s[j].score
  }

  /** Inserts `x` after every element whose score is at most its own. */
  function Insert(s: seq<RankedParagraph>, x: RankedParagraph): (r: seq<RankedParagraph>)
    requires SortedByScore(s)
    ensures SortedByScore(r)
    ensures multiset(r) == multiset(s) + multiset{x}
  {
    if s == [] || Last(s).score <= x.score then s + [x]
    else
      var r := Insert(Init(s), x);
      InsertBeforeLast(s, x, r);
      r + [Last(s)]
  }

  /** The recursive step of `Insert`: `x` went into the front, and the last element stays last. */
  lemma InsertBeforeLast(s: seq<RankedParagraph>, x: RankedParagraph, r: seq<RankedParagraph>)
    requires s != [] && SortedByScore(s) && x.score < Last(s).score
    requires SortedByScore(r) && multiset(r) == multiset(Init(s)) + multiset{x}
    ensures SortedByScore(r + [Last(s)])
    ensures multiset(r + [Last(s)]) == multiset(s) + multiset{x}
  {
    assert s == Init(s) + [Last(s)];
    forall y | y in r
      ensures y.score <= Last(s).score
    {
      assert y in multiset(r);
      if y != x {
        assert y in Init(s);
      }
    }
  }

  function SortByScore(s: seq<RankedParagraph>): (r: seq<RankedParagraph>)
    ensures SortedByScore(r)
    ensures multiset(r) == multiset(s)
  {
    if s == [] then []
    else
      assert s == Init(s) + [Last(s)];
      Insert(SortByScore(Init(s)), Last(s))
  }

  /** The elements whose score is `v`, in order. */
  function WithScore(s: seq<RankedParagraph>, v: real): seq<RankedParagraph>
  {
    if s == [] then [] else WithScore(Init(s), v) + (if Last(s).score == v then [Last(s)] else [])
  }

  lemma {:induction false} InsertKeepsTies(s: seq<RankedParagraph>, x: RankedParagraph, v: real)
    requires SortedByScore(s)
    ensures WithScore(Insert(s, x), v) == WithScore(s, v) + (if x.score == v then [x] else [])
  {
    var tie := if x.score == v then [x] else [];
    if s == [] || Last(s).score <= x.score {
      assert Insert(s, x) == s + [x];
      assert Init(s + [x]) == s;
    } else {
      var last := Last(s);
      var r := Insert(Init(s), x);
      assert Insert(s, x) == r + [last];
      var lastTie := if last.score == v then [last] else [];
      calc {
        WithScore(r + [last], v);
        { assert Init(r + [last]) == r; }
        WithScore(r, v) + lastTie;
        { InsertKeepsTies(Init(s), x, v); }
        WithScore(Init(s), v) + tie + lastTie;
        { assert tie == [] || lastTie == []; }
        WithScore(Init(s), v) + lastTie + tie;
        WithScore(s, v) + tie;
      }
    }
  }

  /** Stability: among paragraphs of equal score, the sorted order is the input order. */
  lemma {:induction false} SortIsStable(s: seq<RankedParagraph>, v: real)
    ensures WithScore(SortByScore(s), v) == WithScore(s, v)
  {
    if s != [] {
      SortIsStable(Init(s), v);
      InsertKeepsTies(SortByScore(Init(s)), Last(s), v);
    }
  }
}
