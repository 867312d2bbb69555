/** What a search of an index must answer, said of the indexed documents alone (internal/index/maxscore.go). */
module DocScores {
  import opened Options
  import opened Bits
  import opened PostingFormat
  import opened Iter = PostingIter
  import opened Index = InvertedIndex
  import opened Heap = ScoreHeap
  import opened TopK
  import opened MaxScoreModel
  import opened QueryTerms
  import opened BuiltIndex
  import opened BuiltIndexFacts
  import opened MaxScoreSearch

  /** The documents that have a term. */
  ghost function Holding(docs: seq<Doc>, t: gostring): set<nat> {
    HoldingBelow(docs, t, |docs|)
  }

  ghost function HoldingBelow(docs: seq<Doc>, t: gostring, n: nat): set<nat> {
    set d: nat | d < n && d < |docs| && t in docs[d].tfs
  }

  /** What one token adds to document d: the scorer's value for its frequency there, its rarity and the document's length. */
  ghost function DocTokenScore(docs: seq<Doc>, scorer: Scorer, t: gostring, d: nat): real {
    if d < |docs| && t in docs[d].tfs
    then scorer.withIDF(docs[d].tfs[t], scorer.idf(|Holding(docs, t)|, |docs|), docs[d].len, AvgLen(docs))
    else 0.0
  }

  ghost function DocScore(docs: seq<Doc>, scorer: Scorer, tokens: seq<gostring>, d: nat): real {
    if tokens == [] then 0.0 else
      DocScore(docs, scorer, tokens[..|tokens| - 1], d) + DocTokenScore(docs, scorer, tokens[|tokens| - 1], d)
  }

  ghost function ScoresOf(docs: seq<Doc>, scorer: Scorer, tokens: seq<gostring>): nat -> real {
    (d: nat) => DocScore(docs, scorer, tokens, d)
  }

  /** The documents that have some token. */
  ghost function DocHits(docs: seq<Doc>, tokens: seq<gostring>): set<nat> {
    set d: nat | d < |docs| && HasSome(docs[d], tokens)
  }

  ghost predicate HasSome(doc: Doc, tokens: seq<gostring>) {
    exists i :: 0 <= i < |tokens| && tokens[i] in doc.tfs
  }

  /** Result i is document nums[i], by its ID, with its score and rank. */
  ghost predicate Ranks(docs: seq<Doc>, results: seq<ScoredDocument>, nums: seq<nat>, full: nat -> real) {
    && |results| == |nums|
    && forall i :: 0 <= i < |nums| ==> nums[i] < |docs| && results[i] == ScoredDocument(docs[nums[i]].docID, full(nums[i]), i + 1)
  }

  /** results are an exact top-K of the documents for these tokens. */
  ghost predicate ExactAnswer(docs: seq<Doc>, scorer: Scorer, tokens: seq<gostring>, topK: nat, results: seq<ScoredDocument>, nums: seq<nat>) {
    && IsTopK(nums, ScoresOf(docs, scorer, tokens), DocHits(docs, tokens), topK)
    && Ranks(docs, results, nums, ScoresOf(docs, scorer, tokens))
  }

  /** The average times the number of documents is the sum of their lengths. */
  lemma AverageIs(docs: seq<Doc>)
    ensures AvgLen(docs) * (|docs| as real) == TotalLen(docs) as real
  {
    hide TotalLen;
    if docs == [] {
      TotalIs([], Doc([], map[], 0), []);
    } else {
      var total, n := TotalLen(docs) as real, |docs| as real;
      assert total / n * n == total;
    }
  }

  lemma {:induction false} TotalIs(a: seq<Doc>, d: Doc, b: seq<Doc>)
    ensures TotalLen([]) == 0 && TotalLen([d]) == d.len && TotalLen(a + b) == TotalLen(a) + TotalLen(b)
  {
    assert [d][..0] == [];
    if b == [] {
      assert a + b == a;
    } else {
      TotalIs(a, d, b[..|b| - 1]);
      assert (a + b)[..|a + b| - 1] == a + b[..|b| - 1];
    }
  }

  // ----- an index answers what its documents say

  /** idx holds what a search reads of these documents. */
  ghost predicate HoldsDocs(idx: InvertedIndex, docs: seq<Doc>) {
    && Represents(idx, Lists(docs, idx.terms))
    && idx.N == |docs| && idx.avgDocLen == AvgLen(docs)
    && (forall d :: 0 <= d < |docs| ==> idx.docIDs[d] == docs[d].docID && idx.DocLens()[d] == docs[d].len)
    && (forall d, t :: 0 <= d < |docs| && t in docs[d].tfs ==> t in idx.termIndex)
  }

  lemma {:induction false} ListCount(docs: seq<Doc>, t: gostring, n: nat)
    requires n <= |docs|
    ensures |ListUpTo(docs, t, n)| == |HoldingBelow(docs, t, n)|
  {
    if n == 0 {
      assert HoldingBelow(docs, t, 0) == {};
    } else {
      hide HoldingBelow;
      ListCount(docs, t, n - 1);
      OneMore(docs, t, n);
    }
  }

  lemma OneMore(docs: seq<Doc>, t: gostring, n: nat)
    requires 0 < n <= |docs|
    ensures |HoldingBelow(docs, t, n)| == |HoldingBelow(docs, t, n - 1)| + if t in docs[n - 1].tfs then 1 else 0
  {
    assert HoldingBelow(docs, t, n) == HoldingBelow(docs, t, n - 1) + if t in docs[n - 1].tfs then {n - 1} else {};
  }

  /** Where document d lies in a term's list, if it has the term. */
  lemma InTermList(docs: seq<Doc>, t: gostring, d: nat)
    ensures var ps := TermList(docs, t);
            var j := FirstReaching(ps, 0, d);
            if d < |docs| && t in docs[d].tfs then j < |ps| && ps[j] == Posting(d, docs[d].tfs[t]) else j < |ps| ==> ps[j].doc != d
  {
    hide ListUpTo;
    var ps := TermList(docs, t);
    if d < |docs| && t in docs[d].tfs {
      assert Posting(d, docs[d].tfs[t]) in ps;
      var i :| 0 <= i < |ps| && ps[i] == Posting(d, docs[d].tfs[t]);
    }
  }

  lemma TokenIsDoc(idx: InvertedIndex, docs: seq<Doc>, scorer: Scorer, t: gostring, d: nat)
    requires HoldsDocs(idx, docs)
    ensures TokenScore(idx, Lists(docs, idx.terms), scorer, t, d) == DocTokenScore(docs, scorer, t, d)
  {
    hide ListUpTo, TermStored, AvgLen, InvertedIndex.DocLens, HoldingBelow;
    InTermList(docs, t, d);
    ListCount(docs, t, |docs|);
    if t in idx.termIndex { assert idx.terms[idx.termIndex[t]] == t; }
  }

  lemma {:induction false} TokensAreDoc(idx: InvertedIndex, docs: seq<Doc>, scorer: Scorer, tokens: seq<gostring>, d: nat)
    requires HoldsDocs(idx, docs)
    ensures TokensScore(idx, Lists(docs, idx.terms), scorer, tokens, d) == DocScore(docs, scorer, tokens, d)
  {
    hide Represents, TokenScore, DocTokenScore, InvertedIndex.DocLens;
    if tokens != [] {
      TokensAreDoc(idx, docs, scorer, tokens[..|tokens| - 1], d);
      TokenIsDoc(idx, docs, scorer, tokens[|tokens| - 1], d);
    }
  }

  lemma HitsAreDocs(idx: InvertedIndex, docs: seq<Doc>, tokens: seq<gostring>, d: nat)
    requires HoldsDocs(idx, docs) && d < |docs|
    ensures Hit(idx, Lists(docs, idx.terms), tokens, d) <==> HasSome(docs[d], tokens)
  {
    hide ListUpTo, TermStored, AvgLen, InvertedIndex.DocLens;
    var lists := Lists(docs, idx.terms);
    forall i | 0 <= i < |tokens|
      ensures tokens[i] in docs[d].tfs <==> tokens[i] in idx.termIndex && InList(lists[idx.termIndex[tokens[i]]], d)
    {
      var t := tokens[i];
      if t in idx.termIndex {
        assert idx.terms[idx.termIndex[t]] == t;
        ListHasDoc(docs, t, d);
      }
    }
  }

  lemma ListHasDoc(docs: seq<Doc>, t: gostring, d: nat)
    requires d < |docs|
    ensures InList(TermList(docs, t), d) <==> t in docs[d].tfs
  {
    hide ListUpTo;
    var ps := TermList(docs, t);
    if t in docs[d].tfs {
      assert Posting(d, docs[d].tfs[t]) in ps;
      var i :| 0 <= i < |ps| && ps[i] == Posting(d, docs[d].tfs[t]);
    }
  }

  /** So an exact answer from the index is the exact answer of its documents. */
  lemma AnswersAreDocs(idx: InvertedIndex, docs: seq<Doc>, scorer: Scorer, tokens: seq<gostring>, topK: nat, results: seq<ScoredDocument>, nums: seq<nat>)
    requires HoldsDocs(idx, docs)
    requires var lists := Lists(docs, idx.terms);
             IsTopK(nums, ScoreOf(idx, lists, scorer, tokens), Hits(idx, lists, tokens), topK)
             && Answers(idx, results, nums, ScoreOf(idx, lists, scorer, tokens))
    ensures ExactAnswer(docs, scorer, tokens, topK, results, nums)
  {
    hide Represents, TokensScore, DocScore, Hit, HasSome, InvertedIndex.DocLens, AvgLen;
    var lists := Lists(docs, idx.terms);
    forall d: nat ensures ScoreOf(idx, lists, scorer, tokens)(d) == ScoresOf(docs, scorer, tokens)(d) {
      TokensAreDoc(idx, docs, scorer, tokens, d);
    }
    forall d: nat ensures d in Hits(idx, lists, tokens) <==> d in DocHits(docs, tokens) {
      if d < |docs| { HitsAreDocs(idx, docs, tokens, d); }
    }
    SameTopK(nums, ScoreOf(idx, lists, scorer, tokens), Hits(idx, lists, tokens), ScoresOf(docs, scorer, tokens), DocHits(docs, tokens), topK);
    SizesOf(idx, docs);
  }

  lemma SizesOf(idx: InvertedIndex, docs: seq<Doc>)
    requires HoldsDocs(idx, docs)
    ensures |idx.docIDs| == |docs|
  {
  }

  /** A built index holds its documents. */
  lemma BuiltHolds(idx: InvertedIndex, docs: seq<Doc>, vocabulary: set<gostring>, k: BuildScoring)
    requires Small(docs) && IsIndexOf(idx, docs, vocabulary, k) && Covers(vocabulary, docs)
    ensures HoldsDocs(idx, docs)
  {
    hide Represents, AvgLen, IsIndexOf, InvertedIndex.DocLens;
    BuiltRepresents(idx, docs, vocabulary, k);
    BuiltDocFacts(idx, docs, vocabulary, k);
    forall d, t | 0 <= d < |docs| && t in docs[d].tfs ensures t in idx.termIndex {
      InVocabulary(idx, docs, vocabulary, k, t);
    }
  }

  lemma BuiltDocFacts(idx: InvertedIndex, docs: seq<Doc>, vocabulary: set<gostring>, k: BuildScoring)
    requires Small(docs) && IsIndexOf(idx, docs, vocabulary, k)
    ensures idx.N == |docs| == |idx.docIDs| && idx.avgDocLen == AvgLen(docs)
    ensures forall d :: 0 <= d < |docs| ==> idx.docIDs[d] == docs[d].docID && idx.DocLens()[d] == docs[d].len
  {
    hide SortedTerms, DistinctIDs, ValidList, InDocs, TermBounds, AvgLen, ListUpTo, Joined;
  }
}
