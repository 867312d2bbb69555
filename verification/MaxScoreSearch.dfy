/**
 MaxScoreSearcher.Search (internal/index/maxscore.go): for every index, token
 list and K the answer is exactly the exhaustive top-K. With a cache the index is
 what a segment reader presents (internal/segment/reader.go).
 */
module MaxScoreSearch {
  import opened Collections
  import opened Bits
  import opened Options
  import opened PostingFormat
  import opened Cache = BlockCache
  import opened Iter = PostingIter
  import opened Index = InvertedIndex
  import opened Heap = ScoreHeap
  import opened TopK
  import opened MaxScoreModel
  import opened MaxScorePruning
  import opened MaxScoreSteps
  import opened QueryTerms
  import opened QueryEntries
  import Core = MaxScore

  /** Every document's exhaustive score. */
  ghost function ScoreOf(idx: InvertedIndex, lists: seq<seq<Posting>>, scorer: Scorer, tokens: seq<gostring>): nat -> real
    requires Represents(idx, lists)
  {
    (d: nat) => TokensScore(idx, lists, scorer, tokens, d)
  }

  ghost function Hits(idx: InvertedIndex, lists: seq<seq<Posting>>, tokens: seq<gostring>): set<nat>
    requires Represents(idx, lists)
  {
    set d | 0 <= d < idx.N && Hit(idx, lists, tokens, d)
  }

  /** The ranked answer: documents docs by their IDs, with their scores and ranks. */
  ghost predicate Answers(idx: InvertedIndex, results: seq<ScoredDocument>, docs: seq<nat>, full: nat -> real) {
    && |results| == |docs|
    && forall i :: 0 <= i < |docs| ==> docs[i] < |idx.docIDs| && results[i] == ScoredDocument(idx.docIDs[docs[i]], full(docs[i]), i + 1)
  }

  /** The same by what the reader calls a document. */
  ghost predicate Named(idx: InvertedIndex, results: seq<ScoredDocument>, docs: seq<nat>, full: nat -> real) {
    && |results| == |docs|
    && forall i :: 0 <= i < |docs| ==> results[i] == ScoredDocument(idx.DocStringID(docs[i]), full(docs[i]), i + 1)
  }

  /** The documents of an answer have IDs, and these are what they are called. */
  lemma NamesAreIDs(idx: InvertedIndex, lists: seq<seq<Posting>>, scorer: Scorer, tokens: seq<gostring>, results: seq<ScoredDocument>, docs: seq<nat>,
                    full: nat -> real, k: nat)
    requires Represents(idx, lists) && Named(idx, results, docs, full)
    requires IsTopK(docs, ScoreOf(idx, lists, scorer, tokens), Hits(idx, lists, tokens), k)
    requires forall d: nat :: full(d) == ScoreOf(idx, lists, scorer, tokens)(d)
    ensures Answers(idx, results, docs, ScoreOf(idx, lists, scorer, tokens))
  {
    hide TermStored, Hit, TokensScore;
    forall i | 0 <= i < |docs| ensures docs[i] < |idx.docIDs| && results[i] == ScoredDocument(idx.docIDs[docs[i]], full(docs[i]), i + 1) {
      assert docs[i] in Hits(idx, lists, tokens);
    }
  }

  lemma NoHits(idx: InvertedIndex, lists: seq<seq<Posting>>, scorer: Scorer, tokens: seq<gostring>, k: nat)
    requires Represents(idx, lists)
    requires forall d :: 0 <= d < idx.N ==> !Hit(idx, lists, tokens, d)
    ensures IsTopK([], ScoreOf(idx, lists, scorer, tokens), Hits(idx, lists, tokens), k)
  {
    hide Represents, Hit;
    assert Hits(idx, lists, tokens) == {};
  }

  /** Exactness carries over when scores and matches agree. */
  lemma SameTopK(docs: seq<nat>, full: nat -> real, matching: set<nat>, full': nat -> real, matching': set<nat>, k: nat)
    requires IsTopK(docs, full, matching, k) && matching == matching'
    requires forall d: nat :: full(d) == full'(d)
    ensures IsTopK(docs, full', matching', k)
  {
  }

  /** The collapsed, ordered entries score and match every document as the tokens do. */
  lemma SameQuestion(idx: InvertedIndex, lists: seq<seq<Posting>>, scorer: Scorer, tokens: seq<gostring>, unique: seq<gostring>,
                     qtf: map<gostring, nat>, entries: seq<TermEntry>, sorted: seq<TermEntry>, d: nat)
    requires Represents(idx, lists) && Collapsed(tokens, unique, qtf)
    requires EntriesFor(idx, lists, scorer, Known(idx, unique), qtf, entries) && multiset(sorted) == multiset(entries)
    requires WeightedScore(idx, lists, scorer, unique, qtf, d) == TokensScore(idx, lists, scorer, tokens, d)
    ensures Full(sorted, ScoringOf(idx, scorer), d) == TokensScore(idx, lists, scorer, tokens, d)
    ensures Matches(sorted, d) == Hit(idx, lists, tokens, d)
  {
    hide Represents, EntriesFor, WeightedScore, TokensScore, Full, Matches, Hit;
    EntriesScore(idx, lists, scorer, unique, qtf, entries, d);
    EntriesMatch(idx, lists, scorer, tokens, unique, qtf, entries, d);
    FullPermuted(entries, sorted, ScoringOf(idx, scorer), d);
    MatchesPermuted(entries, sorted, d);
  }

  lemma SortedReady(entries: seq<TermEntry>, sorted: seq<TermEntry>, perm: seq<nat>, cache: BlockCache?)
    requires Ready(entries, cache) && Permutes(perm, entries, sorted)
    ensures Apart(sorted, cache) && Core.Fresh(sorted, 0)
  {
    hide PostingIter.Valid;
    forall i, j | 0 <= i < j < |sorted|
      ensures sorted[i].iter != sorted[j].iter
      ensures sorted[i].iter.docBuf != sorted[j].iter.docBuf && sorted[i].iter.docBuf != sorted[j].iter.tfBuf
      ensures sorted[i].iter.tfBuf != sorted[j].iter.docBuf && sorted[i].iter.tfBuf != sorted[j].iter.tfBuf
    {
      assert perm[i] != perm[j];
    }
  }

  lemma SortedDominated(idx: InvertedIndex, lists: seq<seq<Posting>>, scorer: Scorer, unique: seq<gostring>, qtf: map<gostring, nat>,
                        entries: seq<TermEntry>, sorted: seq<TermEntry>, perm: seq<nat>, cache: BlockCache?)
    requires Represents(idx, lists) && Bounded(idx, lists, scorer) && Ready(entries, cache) && Permutes(perm, entries, sorted)
    requires EntriesFor(idx, lists, scorer, Known(idx, unique), qtf, entries)
    ensures AllDominated(sorted, ScoringOf(idx, scorer))
  {
    hide Represents, Bounded, EntryFor, Apart, PostingIter.Fixed, Dominated;
    var terms := Known(idx, unique);
    forall i | 0 <= i < |sorted| ensures Dominated(sorted[i], ScoringOf(idx, scorer)) {
      var k := perm[i];
      EntryDominated(idx, lists, scorer, terms[k], qtf[terms[k]] as real, entries[k]);
    }
  }

  lemma SortedFresh(entries: seq<TermEntry>, sorted: seq<TermEntry>, perm: seq<nat>, i: nat)
    requires Permutes(perm, entries, sorted) && i < |sorted|
    ensures exists k :: 0 <= k < |entries| && sorted[i] == entries[k]
  {
    assert sorted[i] == entries[perm[i]];
  }

  method Search(idx: InvertedIndex, scorer: Scorer, cache: BlockCache?, tokens: seq<gostring>, topK: int, ghost lists: seq<seq<Posting>>)
    returns (results: seq<ScoredDocument>, ghost docs: seq<nat>)
    requires Represents(idx, lists) && CacheAgrees(cache, lists) && CacheOk(cache)
    requires Bounded(idx, lists, scorer)
    modifies if cache == null then {} else {cache}
    ensures CacheOk(cache)
    ensures topK <= 0 ==> results == []
    ensures topK > 0 ==> IsTopK(docs, ScoreOf(idx, lists, scorer, tokens), Hits(idx, lists, tokens), topK)
    ensures topK > 0 ==> Answers(idx, results, docs, ScoreOf(idx, lists, scorer, tokens))
  {
    hide Represents, CacheAgrees, Bounded, EntriesFor, Hit, TokensScore, WeightedScore, IsTopK;
    docs := [];
    if topK <= 0 {
      return [], [];
    }
    if idx.N == 0 {
      NoHits(idx, lists, scorer, tokens, topK);
      return [], [];
    }
    var unique, qtf := Collapse(tokens, idx, lists, scorer);
    var entries := MakeEntries(idx, scorer, cache, unique, qtf, lists);
    results, docs := Ranked(idx, scorer, cache, tokens, unique, qtf, entries, topK, lists);
  }

  lemma SameQuestions(idx: InvertedIndex, lists: seq<seq<Posting>>, scorer: Scorer, tokens: seq<gostring>, unique: seq<gostring>,
                      qtf: map<gostring, nat>, entries: seq<TermEntry>, sorted: seq<TermEntry>)
    requires Represents(idx, lists) && Collapsed(tokens, unique, qtf)
    requires EntriesFor(idx, lists, scorer, Known(idx, unique), qtf, entries) && multiset(sorted) == multiset(entries)
    requires forall d :: WeightedScore(idx, lists, scorer, unique, qtf, d) == TokensScore(idx, lists, scorer, tokens, d)
    ensures forall d: nat :: Full(sorted, ScoringOf(idx, scorer), d) == TokensScore(idx, lists, scorer, tokens, d)
    ensures forall d: nat :: Matches(sorted, d) == Hit(idx, lists, tokens, d)
  {
    hide Represents, EntriesFor, Hit, TokensScore, WeightedScore, Collapsed, Full, Matches;
    forall d: nat
      ensures Full(sorted, ScoringOf(idx, scorer), d) == TokensScore(idx, lists, scorer, tokens, d) && Matches(sorted, d) == Hit(idx, lists, tokens, d)
    {
      SameQuestion(idx, lists, scorer, tokens, unique, qtf, entries, sorted, d);
    }
  }

  method Ranked(idx: InvertedIndex, scorer: Scorer, cache: BlockCache?, ghost tokens: seq<gostring>, ghost unique: seq<gostring>,
                ghost qtf: map<gostring, nat>, unsorted: seq<TermEntry>, topK: nat, ghost lists: seq<seq<Posting>>)
    returns (results: seq<ScoredDocument>, ghost docs: seq<nat>)
    requires Represents(idx, lists) && CacheOk(cache) && Bounded(idx, lists, scorer) && topK > 0
    requires Collapsed(tokens, unique, qtf) && EntriesFor(idx, lists, scorer, Known(idx, unique), qtf, unsorted)
    requires forall d :: WeightedScore(idx, lists, scorer, unique, qtf, d) == TokensScore(idx, lists, scorer, tokens, d)
    requires Ready(unsorted, cache)
    modifies Footprint(unsorted, cache)
    ensures CacheOk(cache)
    ensures IsTopK(docs, ScoreOf(idx, lists, scorer, tokens), Hits(idx, lists, tokens), topK)
    ensures Answers(idx, results, docs, ScoreOf(idx, lists, scorer, tokens))
  {
    hide Represents, Bounded, EntriesFor, Hit, TokensScore, WeightedScore, IsTopK, Collapsed, Full, Matches;
    var s := ScoringOf(idx, scorer);
    var entries;
    ghost var perm;
    entries, perm := SortByBound(unsorted);
    SameQuestions(idx, lists, scorer, tokens, unique, qtf, unsorted, entries);
    if |entries| == 0 {
      NothingMatches(idx, lists, scorer, tokens, entries, topK);
      return [], [];
    }
    SortedReady(unsorted, entries, perm, cache);
    SortedDominated(idx, lists, scorer, unique, qtf, unsorted, entries, perm, cache);
    SameFootprint(unsorted, entries, perm, cache);
    results, docs := RankSorted(idx, scorer, cache, tokens, entries, topK, lists);
  }

  method RankSorted(idx: InvertedIndex, scorer: Scorer, cache: BlockCache?, ghost tokens: seq<gostring>, entries: seq<TermEntry>, topK: nat,
                    ghost lists: seq<seq<Posting>>)
    returns (results: seq<ScoredDocument>, ghost docs: seq<nat>)
    requires Represents(idx, lists) && entries != [] && topK > 0
    requires AllDominated(entries, ScoringOf(idx, scorer)) && Apart(entries, cache) && CacheOk(cache) && Core.Fresh(entries, 0)
    requires forall d: nat :: Full(entries, ScoringOf(idx, scorer), d) == TokensScore(idx, lists, scorer, tokens, d)
    requires forall d: nat :: Matches(entries, d) == Hit(idx, lists, tokens, d)
    modifies Footprint(entries, cache)
    ensures CacheOk(cache)
    ensures IsTopK(docs, ScoreOf(idx, lists, scorer, tokens), Hits(idx, lists, tokens), topK)
    ensures Answers(idx, results, docs, ScoreOf(idx, lists, scorer, tokens))
  {
    hide Represents, Hit, TokensScore, IsTopK, Full, Matches, AllDominated, Apart, Core.Fresh, Footprint, Answers, Named;
    var s := ScoringOf(idx, scorer);
    results, docs := TopDocs(idx, s, cache, entries, topK);
    Transfer(idx, lists, scorer, tokens, entries, docs, topK);
    NamesAreIDs(idx, lists, scorer, tokens, results, docs, Core.FullScore(entries, s), topK);
  }

  lemma NothingMatches(idx: InvertedIndex, lists: seq<seq<Posting>>, scorer: Scorer, tokens: seq<gostring>, entries: seq<TermEntry>, k: nat)
    requires Represents(idx, lists) && entries == []
    requires forall d: nat :: Matches(entries, d) == Hit(idx, lists, tokens, d)
    ensures IsTopK([], ScoreOf(idx, lists, scorer, tokens), Hits(idx, lists, tokens), k)
  {
    hide Represents, Hit;
    NoHits(idx, lists, scorer, tokens, k);
  }

  lemma SameFootprint(entries: seq<TermEntry>, sorted: seq<TermEntry>, perm: seq<nat>, cache: BlockCache?)
    requires Permutes(perm, entries, sorted)
    ensures Footprint(sorted, cache) <= Footprint(entries, cache)
  {
    forall i | 0 <= i < |sorted| ensures exists k :: 0 <= k < |entries| && sorted[i] == entries[k] {
      SortedFresh(entries, sorted, perm, i);
    }
  }

  /** Run the loop and rank what it kept. */
  method TopDocs(idx: InvertedIndex, s: Scoring, cache: BlockCache?, entries: seq<TermEntry>, topK: nat)
    returns (results: seq<ScoredDocument>, ghost docs: seq<nat>)
    requires entries != [] && topK > 0 && AllDominated(entries, s) && Apart(entries, cache) && CacheOk(cache)
    requires Core.Fresh(entries, 0)
    modifies Footprint(entries, cache)
    ensures CacheOk(cache)
    ensures IsTopK(docs, Core.FullScore(entries, s), Core.Matching(entries, s), topK)
    ensures Named(idx, results, docs, Core.FullScore(entries, s))
  {
    hide AllDominated, Apart, Core.Fresh, Footprint, HeapOk, IsTopK, Full, Core.Matching;
    var h;
    ghost var theta, order;
    h, theta := Core.Run(entries, s, cache, topK);
    results, order := h.Sorted((d: nat) => idx.DocStringID(d));
    Core.HeapIsTopK(h.es, order, entries, s, topK, theta);
    docs := Core.DocNums(order);
  }

  lemma Transfer(idx: InvertedIndex, lists: seq<seq<Posting>>, scorer: Scorer, tokens: seq<gostring>, entries: seq<TermEntry>,
                 docs: seq<nat>, k: nat)
    requires Represents(idx, lists)
    requires forall d: nat :: Full(entries, ScoringOf(idx, scorer), d) == TokensScore(idx, lists, scorer, tokens, d)
    requires forall d: nat :: Matches(entries, d) == Hit(idx, lists, tokens, d)
    requires IsTopK(docs, Core.FullScore(entries, ScoringOf(idx, scorer)), Core.Matching(entries, ScoringOf(idx, scorer)), k)
    ensures IsTopK(docs, ScoreOf(idx, lists, scorer, tokens), Hits(idx, lists, tokens), k)
    ensures forall d: nat :: Core.FullScore(entries, ScoringOf(idx, scorer))(d) == ScoreOf(idx, lists, scorer, tokens)(d)
  {
    hide Represents, Full, TokensScore, Matches, Hit, IsTopK;
    var s := ScoringOf(idx, scorer);
    assert Core.Matching(entries, s) == Hits(idx, lists, tokens);
    SameTopK(docs, Core.FullScore(entries, s), Core.Matching(entries, s), ScoreOf(idx, lists, scorer, tokens), Hits(idx, lists, tokens), k);
  }

  // ----- against exhaustive search

  /** The matching documents below n, in order. */
  ghost function HitList(idx: InvertedIndex, lists: seq<seq<Posting>>, tokens: seq<gostring>, n: nat): (docs: seq<nat>)
    requires Represents(idx, lists)
  {
    if n == 0 then [] else
      var init := HitList(idx, lists, tokens, n - 1);
      if Hit(idx, lists, tokens, n - 1) then init + [n - 1] else init
  }

  lemma {:induction false} HitListHas(idx: InvertedIndex, lists: seq<seq<Posting>>, tokens: seq<gostring>, n: nat, d: nat)
    requires Represents(idx, lists)
    ensures d in HitList(idx, lists, tokens, n) <==> d < n && Hit(idx, lists, tokens, d)
  {
    hide Represents, Hit;
    if n > 0 { HitListHas(idx, lists, tokens, n - 1, d); }
  }

  lemma {:induction false} HitListDistinct(idx: InvertedIndex, lists: seq<seq<Posting>>, tokens: seq<gostring>, n: nat)
    requires Represents(idx, lists)
    ensures Distinct(HitList(idx, lists, tokens, n))
  {
    hide Represents, Hit;
    if n > 0 {
      HitListDistinct(idx, lists, tokens, n - 1);
      var init := HitList(idx, lists, tokens, n - 1);
      forall i | 0 <= i < |init| ensures init[i] != n - 1 {
        assert init[i] in init;
        HitListHas(idx, lists, tokens, n - 1, init[i]);
      }
    }
  }

  /** Rank by rank, any exact answer scores what scoring every document and sorting gives. */
  lemma SameAsExhaustive(idx: InvertedIndex, lists: seq<seq<Posting>>, scorer: Scorer, tokens: seq<gostring>, docs: seq<nat>, k: nat)
    requires Represents(idx, lists)
    requires IsTopK(docs, ScoreOf(idx, lists, scorer, tokens), Hits(idx, lists, tokens), k)
    ensures var full := ScoreOf(idx, lists, scorer, tokens);
            var best := Exhaustive(HitList(idx, lists, tokens, idx.N), full, k);
            |docs| == |best| && forall i :: 0 <= i < |docs| ==> full(docs[i]) == full(best[i])
  {
    hide Represents, Hit, TokensScore, IsTopK;
    var full, list := ScoreOf(idx, lists, scorer, tokens), HitList(idx, lists, tokens, idx.N);
    HitListDistinct(idx, lists, tokens, idx.N);
    forall d: nat ensures d in list <==> d < idx.N && Hit(idx, lists, tokens, d) {
      HitListHas(idx, lists, tokens, idx.N, d);
    }
    ExhaustiveIsTopK(list, full, k);
    assert Elements(list) == Hits(idx, lists, tokens);
    ScoresAreDetermined(docs, Exhaustive(list, full, k), full, Hits(idx, lists, tokens), k);
  }
}
