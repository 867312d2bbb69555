/** From added documents through a segment file to answers (internal/segment/writer.go, reader.go). */
module SegmentSessions {
  import opened Options
  import opened Bits
  import opened PostingFormat
  import opened Index = InvertedIndex
  import opened Builder = IndexBuilder
  import opened BuiltIndex
  import opened IndexedDocs
  import opened BuilderTables
  import opened BuiltIndexFacts
  import opened Heap = ScoreHeap
  import opened TopK
  import opened QueryTerms
  import opened QueryEntries
  import opened MaxScoreSearch
  import opened DocScores
  import opened SegmentFile
  import opened SegmentReader
  import opened IndexingSessions

  /**
   Index, write, parse, search. The file parses to a segment that answers as
   the built index does but for its rounded bounds, and a search over these
   answers is the exact top-K of what was indexed.
   */
  method SearchSegment(vs: seq<Version>, k: BuildScoring, fm: Formats, scorer: Scorer, tokens: seq<gostring>, topK: int)
    returns (results: seq<ScoredDocument>, ghost docs: seq<nat>, idx: InvertedIndex, parsed: Parsed)
    requires IndexingSessions.Fits(vs) && SameScorer(scorer, k) && RoundsWell(k.round32) && FormatsWork(fm) && fm.round32 == k.round32
    ensures Writable(idx) && (SizesFit(idx, fm) ==> parsed == Ok(Loaded(idx, fm)) && FileFits(idx, fm) && SkipsFit(idx, fm.f))
    ensures Presents(Loaded(idx, fm), WithRounded(idx, fm.round32))
    ensures HoldsDocs(WithRounded(idx, fm.round32), Indexed(DocsOf(vs)))
    ensures topK <= 0 ==> results == []
    ensures topK > 0 ==> ExactAnswer(Indexed(DocsOf(vs)), scorer, tokens, topK, results, docs)
  {
    hide DocOf, IndexBuilder.Valid, IsIndexOf, Selected, TokenCount, Represents, Bounded, IsTopK, TokensScore, Hit, Indexed, Counted, NothingCut,
      SameScorer, RoundsWell, DistinctIDs, FormatsWork, SizesFit, FileFits, SkipsFit, Writable, Presents, Parse, FileBytes, Loaded, HoldsDocs, ExactAnswer, Answers;
    var b := AddAll(vs);
    idx := b.Build(k);
    ghost var indexed := Indexed(b.docs);
    BuiltIsWritable(idx, indexed, b.Vocabulary(), k);
    var file := WriteSegment(idx, fm);
    parsed := ParseSegment(file, fm);
    if SizesFit(idx, fm) {
      BuiltFileFits(idx, indexed, b.Vocabulary(), k, fm);
      FileRoundTrip(idx, fm);
    }
    SegmentPresents(idx, indexed, b.Vocabulary(), k, fm);
    AddsAreCounted(vs);
    LoadedIsBounded(idx, indexed, b.Vocabulary(), k, scorer);
    b.VocabularyCovers();
    BuiltHolds(idx, indexed, b.Vocabulary(), k);
    RoundedHolds(idx, indexed, fm.round32);
    var reader := WithRounded(idx, fm.round32);
    results, docs := Search(reader, scorer, null, tokens, topK, Lists(indexed, idx.terms));
    if topK > 0 { AnswersAreDocs(reader, indexed, scorer, tokens, topK, results, docs); }
  }

  lemma RoundedHolds(idx: InvertedIndex, docs: seq<Doc>, round32: real -> real)
    requires HoldsDocs(idx, docs)
    ensures HoldsDocs(WithRounded(idx, round32), docs)
  {
    hide Represents, Lists, AvgLen;
    RoundedRepresents(idx, Lists(docs, idx.terms), round32);
    assert WithRounded(idx, round32).DocLens() == idx.DocLens();
  }
}
