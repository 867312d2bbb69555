/** Whole sessions with the index builder: add documents, build, search. */
module IndexingSessions {
  import opened Options
  import opened Bits
  import opened RadixSort
  import opened PostingFormat
  import opened Index = InvertedIndex
  import opened Builder = IndexBuilder
  import opened BuiltIndex
  import opened IndexedDocs
  import opened BuilderTables
  import opened BuiltIndexFacts
  import opened Heap = ScoreHeap
  import opened TopK
  import opened QueryTerms
  import opened QueryEntries
  import opened MaxScoreSearch
  import opened DocScores
  import opened Bm25

  /** One call of Add. */
  datatype Version = Version(docID: gostring, tokens: seq<gostring>)

  function DocOf(v: Version): Doc {
    Doc(v.docID, Counts(v.tokens), |v.tokens|)
  }

  function DocsOf(vs: seq<Version>): (docs: seq<Doc>)
    ensures |docs| == |vs| && forall i :: 0 <= i < |vs| ==> docs[i] == DocOf(vs[i])
  {
    seq(|vs|, i requires 0 <= i < |vs| => DocOf(vs[i]))
  }

  function TokenCount(vs: seq<Version>): nat {
    if vs == [] then 0 else TokenCount(vs[..|vs| - 1]) + |vs[|vs| - 1].tokens|
  }

  /** Documents and terms fit 32-bit numbers. */
  predicate Fits(vs: seq<Version>) {
    |vs| < 0x1_0000_0000 && TokenCount(vs) < 0x1_0000_0000
  }

  method AddAll(vs: seq<Version>) returns (b: IndexBuilder)
    requires Fits(vs)
    ensures fresh(b) && b.Valid() && b.docs == DocsOf(vs)
  {
    hide Counts, IndexBuilder.Valid, Terms;
    b := new IndexBuilder();
    for i := 0 to |vs|
      invariant fresh(b) && b.Valid() && b.docs == DocsOf(vs[..i]) && |b.termList| <= TokenCount(vs[..i])
    {
      TokenStep(vs, i);
      b.Add(vs[i].docID, vs[i].tokens);
    }
    assert vs[..|vs|] == vs;
  }

  lemma {:induction false} TokenPrefix(vs: seq<Version>, i: nat)
    requires i <= |vs|
    ensures TokenCount(vs[..i]) <= TokenCount(vs)
    decreases |vs|
  {
    if i < |vs| {
      var init := vs[..|vs| - 1];
      TokenPrefix(init, i);
      assert init[..i] == vs[..i];
    } else {
      assert vs[..i] == vs;
    }
  }

  lemma TokenStep(vs: seq<Version>, i: nat)
    requires i < |vs|
    ensures vs[..i + 1] == vs[..i] + [vs[i]] && DocsOf(vs[..i + 1]) == DocsOf(vs[..i]) + [DocOf(vs[i])]
    ensures TokenCount(vs[..i]) + |vs[i].tokens| == TokenCount(vs[..i + 1]) <= TokenCount(vs)
  {
    hide DocOf, TokenCount;
    TokenPrefix(vs, i + 1);
    TokenSnoc(vs[..i], vs[i]);
    assert vs[..i + 1] == vs[..i] + [vs[i]];
  }

  // ----- building twice

  /** A second build returns the same index. */
  method BuildTwice(b: IndexBuilder, k: BuildScoring) returns (first: InvertedIndex, second: InvertedIndex)
    requires b.Valid()
    ensures first == second
  {
    hide IsIndexOf, IndexBuilder.Valid;
    first := b.Build(k);
    second := b.Build(k);
    BuiltUnique(first, second, Indexed(b.docs), b.Vocabulary(), k);
  }

  // ----- the last Add wins

  /** Add i is the last one of its document. */
  predicate LastAdd(vs: seq<Version>, i: nat)
    requires i < |vs|
  {
    forall j :: i < j < |vs| ==> vs[j].docID != vs[i].docID
  }

  /** Only the last Add of each document, in the order of those last Adds. */
  function LastAdds(vs: seq<Version>, n: nat): (s: seq<Version>)
    requires n <= |vs|
  {
    if n == 0 then [] else LastAdds(vs, n - 1) + if LastAdd(vs, n - 1) then [vs[n - 1]] else []
  }

  lemma {:induction false} LastAddsAreLastVersions(vs: seq<Version>, n: nat)
    requires n <= |vs|
    ensures DocsOf(LastAdds(vs, n)) == Selected(DocsOf(vs), n)
  {
    hide DocOf;
    if n > 0 {
      LastAddsAreLastVersions(vs, n - 1);
      SameLastness(vs, n - 1);
    }
  }

  lemma SameLastness(vs: seq<Version>, i: nat)
    requires i < |vs|
    ensures LastAdd(vs, i) == IsLast(DocsOf(vs), i)
  {
    var docs := DocsOf(vs);
    assert forall j :: 0 <= j < |vs| ==> docs[j].docID == vs[j].docID;
  }

  lemma {:induction false} FewerTokens(vs: seq<Version>, n: nat)
    requires n <= |vs|
    ensures |LastAdds(vs, n)| <= n && TokenCount(LastAdds(vs, n)) <= TokenCount(vs[..n])
  {
    hide TokenCount, LastAdd;
    if n == 0 {
      assert vs[..0] == LastAdds(vs, 0);
    } else {
      FewerTokens(vs, n - 1);
      assert LastAdds(vs, n - 1) + [] == LastAdds(vs, n - 1);
      TokenSnoc(vs[..n - 1], vs[n - 1]);
      TokenSnoc(LastAdds(vs, n - 1), vs[n - 1]);
      assert vs[..n] == vs[..n - 1] + [vs[n - 1]];
    }
  }

  lemma TokenSnoc(vs: seq<Version>, v: Version)
    ensures TokenCount(vs + [v]) == TokenCount(vs) + |v.tokens|
  {
    assert (vs + [v])[..|vs|] == vs;
  }

  /**
   Adding every version, or only the last one of each document in the order of
   the last Adds: documents, lengths, count and average are the same, and the
   postings of every term are exactly when nothing is cut.
   */
  method AddAllOrLast(vs: seq<Version>, k: BuildScoring) returns (all: InvertedIndex, last: InvertedIndex)
    requires Fits(vs)
    ensures all.docIDs == last.docIDs && all.docIDIndex == last.docIDIndex && all.docLengths == last.docLengths
    ensures all.N == last.N && all.avgDocLen == last.avgDocLen
    ensures DocTable(all, LastVersions(DocsOf(vs)))
    ensures var docs := DocsOf(vs);
            (forall t :: PostingsOf(all, Indexed(docs), t) == PostingsOf(last, LastVersions(docs), t)) <==> NothingCut(docs)
  {
    hide DocOf, IndexBuilder.Valid, IsIndexOf, LastVersions, TokenCount, Indexed, NothingCut, PostingsOf, DistinctIDs;
    ghost var docs := DocsOf(vs);
    FewerTokens(vs, |vs|);
    assert vs[..|vs|] == vs;
    LastAddsAreLastVersions(vs, |vs|);
    OnlyLast(vs);
    var b := AddAll(vs);
    all := b.Build(k);
    var c := AddAll(LastAdds(vs, |vs|));
    OnceEach(docs);
    last := c.Build(k);
    b.VocabularyCovers();
    c.VocabularyCovers();
    LastAddWins(docs, all, b.Vocabulary(), last, c.Vocabulary(), k);
    BuiltDocs(last, LastVersions(docs), c.Vocabulary(), k);
  }

  /** The last versions alone are all indexed. */
  lemma OnceEach(docs: seq<Doc>)
    ensures Indexed(LastVersions(docs)) == LastVersions(docs)
  {
    hide LastVersions;
    LastDistinct(docs);
  }

  /** Document d of the index is docs[d]. */
  ghost predicate DocTable(idx: InvertedIndex, docs: seq<Doc>) {
    idx.N == |idx.docIDs| == |docs| && forall d :: 0 <= d < |docs| ==> idx.docIDs[d] == docs[d].docID
  }

  lemma OnlyLast(vs: seq<Version>)
    ensures Selected(DocsOf(vs), |vs|) == LastVersions(DocsOf(vs))
  {
  }

  lemma BuiltDocs(idx: InvertedIndex, docs: seq<Doc>, vocabulary: set<gostring>, k: BuildScoring)
    requires Small(docs) && IsIndexOf(idx, docs, vocabulary, k)
    ensures DocTable(idx, docs)
  {
    hide SortedTerms, DistinctIDs, TermBounds, AvgLen, ListUpTo;
  }

  // ----- adds that are cut

  /** Add call i of a session: four bytes for a name, and the token x. */
  function NumberedAdd(i: nat): Version { Version(ToLE(i, 4), [TERM_X]) }

  function TooManyAdds(): (vs: seq<Version>)
    ensures |vs| == 0x8000_0002
  {
    [NumberedAdd(0)] + seq(INT32_LIMIT + 1, i requires 0 <= i => NumberedAdd(i))
  }

  lemma {:induction false} OneTokenEach(vs: seq<Version>)
    requires forall i :: 0 <= i < |vs| ==> |vs[i].tokens| == 1
    ensures TokenCount(vs) == |vs|
  {
    if vs != [] { OneTokenEach(vs[..|vs| - 1]); }
  }

  lemma NumberedDoc(i: nat)
    ensures DocOf(NumberedAdd(i)) == Numbered(i)
  {
    assert [TERM_X][..0] == [];
  }

  /** A session within the 32-bit limits whose build drops the postings of its last document. */
  lemma AddsAreCut()
    ensures Fits(TooManyAdds()) && DocsOf(TooManyAdds()) == TooMany() && !NothingCut(DocsOf(TooManyAdds()))
  {
    hide DocOf, NumberedAdd, Numbered, TokenCount, NothingCut;
    var vs := TooManyAdds();
    forall i | 0 <= i < |vs| ensures DocOf(vs[i]) == TooMany()[i] && |vs[i].tokens| == 1 {
      var n := if i == 0 then 0 else i - 1;
      NumberedDoc(n);
      OneToken(n);
    }
    OneTokenEach(vs);
    assert DocsOf(vs) == TooMany();
    TooManyAreCut();
  }

  lemma OneToken(i: nat)
    ensures |NumberedAdd(i).tokens| == 1
  {
  }

  // ----- indexing and searching

  /**
   From Adds to answers: searching the built index with its own scorer returns
   the exact top-K of what it indexes, the documents' last versions unless some
   are cut.
   */
  method IndexAndSearch(vs: seq<Version>, k: BuildScoring, scorer: Scorer, tokens: seq<gostring>, topK: int)
    returns (results: seq<ScoredDocument>, ghost docs: seq<nat>, idx: InvertedIndex)
    requires Fits(vs) && SameScorer(scorer, k) && RoundsWell(k.round32)
    ensures topK <= 0 ==> results == []
    ensures HoldsDocs(idx, Indexed(DocsOf(vs)))
    ensures topK > 0 ==> ExactAnswer(Indexed(DocsOf(vs)), scorer, tokens, topK, results, docs)
    ensures NothingCut(DocsOf(vs)) <==> Indexed(DocsOf(vs)) == LastVersions(DocsOf(vs))
  {
    hide DocOf, IndexBuilder.Valid, IsIndexOf, Selected, TokenCount, Represents, Bounded, IsTopK, TokensScore, Hit, Indexed, Counted, NothingCut,
      SameScorer, RoundsWell, DistinctIDs, HoldsDocs, ExactAnswer, Answers;
    var b := AddAll(vs);
    idx := b.Build(k);
    ghost var indexed := Indexed(b.docs);
    IndexedIsLast(b.docs);
    AddsAreCounted(vs);
    BuiltIsBounded(idx, indexed, b.Vocabulary(), k, scorer);
    b.VocabularyCovers();
    BuiltHolds(idx, indexed, b.Vocabulary(), k);
    results, docs := Search(idx, scorer, null, tokens, topK, Lists(indexed, idx.terms));
    if topK > 0 { AnswersAreDocs(idx, indexed, scorer, tokens, topK, results, docs); }
  }

  /** Frequencies of added documents count their tokens. */
  lemma AddsAreCounted(vs: seq<Version>)
    ensures Counted(Indexed(DocsOf(vs)))
  {
    hide Selected, DistinctIDs, Counts;
    var docs := DocsOf(vs);
    forall i | 0 <= i < |docs| ensures CountedDoc(docs[i]) {
      CountsFit(vs[i]);
    }
    var lv := LastVersions(docs);
    forall d | 0 <= d < |lv| ensures CountedDoc(lv[d]) {
      var i := SelectedFrom(docs, |docs|, d);
    }
    forall d | 0 <= d < |lv| ensures CountedDoc(Cut(lv)[d]) {
      assert CountedDoc(lv[d]);
    }
  }

  lemma CountsFit(v: Version)
    ensures CountedDoc(DocOf(v))
  {
  }

  /** The same with the default BM25 scorer, whatever logarithm and rounding the machine provides. */
  method SearchWithBm25(vs: seq<Version>, ln: real -> real, round32: real -> real, tokens: seq<gostring>, topK: int)
    returns (results: seq<ScoredDocument>, ghost docs: seq<nat>, idx: InvertedIndex)
    requires Fits(vs) && IsLog(ln) && RoundsWell(round32)
    ensures topK <= 0 ==> results == []
    ensures HoldsDocs(idx, Indexed(DocsOf(vs)))
    ensures topK > 0 ==> ExactAnswer(Indexed(DocsOf(vs)), QueryScorer(ln), tokens, topK, results, docs)
  {
    hide *;
    Bm25IsSame(ln, round32);
    KeepsRounding(ln, round32);
    results, docs, idx := IndexAndSearch(vs, Bm25.Scoring(ln, round32), QueryScorer(ln), tokens, topK);
  }

  lemma KeepsRounding(ln: real -> real, round32: real -> real)
    ensures Bm25.Scoring(ln, round32).round32 == round32
  {
  }

  // ----- a term that lost its last posting

  const DOC_A: gostring := [97]
  const TERM_X: gostring := [120]
  const TERM_Y: gostring := [121]

  /**
   HasTerm on a document that was re-added without the term: the term keeps its
   entry with no postings, the document is number 0, and the answer is wrong.
   */
  method StaleTerm(k: BuildScoring) returns (found: bool, idx: InvertedIndex, ghost lists: seq<seq<Posting>>)
    ensures Represents(idx, lists)
    ensures found && !DocHasTerm(idx, lists, TERM_X, DOC_A)
  {
    hide IndexBuilder.Valid, IsIndexOf, Represents, Counts, Selected, DistinctIDs, Lists, DocHasTerm, StartsThere, Small;
    var b := new IndexBuilder();
    b.Add(DOC_A, [TERM_X]);
    b.Add(DOC_A, [TERM_Y]);
    ghost var docs := b.docs;
    idx := b.Build(k);
    StaleIndex(idx, docs, b.Vocabulary(), k);
    lists := Lists(Indexed(docs), idx.terms);
    found := HasTerm(idx, TERM_X, DOC_A, lists);
  }

  lemma StaleIndex(idx: InvertedIndex, docs: seq<Doc>, vocabulary: set<gostring>, k: BuildScoring)
    requires docs == [Doc(DOC_A, Counts([TERM_X]), 1), Doc(DOC_A, Counts([TERM_Y]), 1)]
    requires Small(Indexed(docs)) && IsIndexOf(idx, Indexed(docs), vocabulary, k) && TERM_X in vocabulary
    ensures Represents(idx, Lists(Indexed(docs), idx.terms))
    ensures StartsThere(idx, Lists(Indexed(docs), idx.terms), TERM_X, DOC_A)
  {
    hide IsIndexOf, Represents, ListUpTo, Counts;
    OneLeft(docs);
    var last := Indexed(docs);
    BuiltRepresents(idx, last, vocabulary, k);
    BuiltDocs(idx, last, vocabulary, k);
    InVocabulary(idx, last, vocabulary, k, TERM_X);
    NoPostings(last, TERM_X, 1);
    FirstDocument(idx, last, vocabulary, k);
  }

  lemma OneLeft(docs: seq<Doc>)
    requires docs == [Doc(DOC_A, Counts([TERM_X]), 1), Doc(DOC_A, Counts([TERM_Y]), 1)]
    ensures Indexed(docs) == [docs[1]] && TERM_X !in docs[1].tfs
  {
    hide Counts;
    assert !IsLast(docs, 0) by { assert docs[1].docID == docs[0].docID; }
    assert IsLast(docs, 1);
    assert Selected(docs, 0) == [] && Selected(docs, 1) == [] && Selected(docs, 2) == [docs[1]];
    FewAreKept(docs);
  }

  lemma FirstDocument(idx: InvertedIndex, docs: seq<Doc>, vocabulary: set<gostring>, k: BuildScoring)
    requires Small(docs) && IsIndexOf(idx, docs, vocabulary, k) && docs != []
    ensures docs[0].docID in idx.docIDIndex && idx.docIDIndex[docs[0].docID] == 0
    ensures forall t :: t in idx.termIndex ==> idx.termIndex[t] < |idx.terms| && idx.terms[idx.termIndex[t]] == t
  {
    hide SortedTerms, DistinctIDs, TermBounds, AvgLen, ListUpTo;
    assert idx.docIDs[0] == docs[0].docID;
  }
}
