/**
 What the builder's index guarantees: it is a proper index, it is unique, it
 depends on last versions only, and it bounds the scorer it was built with.
 */
module BuiltIndexFacts {
  import opened Options
  import opened Bits
  import opened RadixSort
  import opened PostingFormat
  import opened Skips = SkipList
  import opened Iter = PostingIter
  import opened Index = InvertedIndex
  import opened MaxScoreModel
  import opened QueryTerms
  import opened QueryEntries
  import opened BuiltIndex
  import opened IndexedDocs
  import opened TermSlices

  // ----- a built index is an index

  lemma {:induction false} JoinedPrefix(lists: seq<seq<Posting>>, m: nat, n: nat)
    requires m <= n <= |lists| && forall o :: 0 <= o < |lists| ==> ValidList(lists[o])
    ensures Joined(lists, m) <= Joined(lists, n)
  {
    hide ValidList, EncodeList;
    if m < n { JoinedPrefix(lists, m, n - 1); }
  }

  /** Term o's slice of the data holds its list. */
  lemma SliceStored(lists: seq<seq<Posting>>, o: nat)
    requires o < |lists| && forall o :: 0 <= o < |lists| ==> ValidList(lists[o])
    ensures |Joined(lists, o)| <= |Joined(lists, o + 1)| <= |Joined(lists, |lists|)|
    ensures Joined(lists, |lists|)[|Joined(lists, o)|..|Joined(lists, o + 1)|] == EncodeList(lists[o])
  {
    hide ValidList, EncodeList;
    JoinedPrefix(lists, o + 1, |lists|);
    var next := o + 1;
    assert Joined(lists, next) == Joined(lists, o) + EncodeList(lists[o]);
    assert Joined(lists, |lists|)[..|Joined(lists, next)|] == Joined(lists, next);
  }

  lemma BuiltRepresents(idx: InvertedIndex, docs: seq<Doc>, vocabulary: set<gostring>, k: BuildScoring)
    requires Small(docs) && IsIndexOf(idx, docs, vocabulary, k)
    ensures Represents(idx, Lists(docs, idx.terms))
  {
    hide ListUpTo, AvgLen, TermBounds, SortedTerms, DistinctIDs, Tables, ValidList, InDocs, TermStored, Joined;
    var lists := Lists(docs, idx.terms);
    TablesSizes(idx);
    forall o | 0 <= o < |lists| ensures TermStored(idx, o, lists[o]) {
      TermIsStored(idx, docs, vocabulary, k, o);
    }
    forall o, j | 0 <= o < |lists| && 0 <= j < |lists[o]| ensures lists[o][j].doc < idx.N {
      InRange(lists[o], docs, j);
    }
  }

  lemma TermIsStored(idx: InvertedIndex, docs: seq<Doc>, vocabulary: set<gostring>, k: BuildScoring, o: nat)
    requires Small(docs) && IsIndexOf(idx, docs, vocabulary, k) && o < |idx.terms|
    ensures TermStored(idx, o, Lists(docs, idx.terms)[o])
  {
    hide ListUpTo, AvgLen, MaxImpact, SortedTerms, DistinctIDs, ValidList, InDocs, EncodeList, Describes, Joined;
    SliceStored(Lists(docs, idx.terms), o);
  }

  lemma TablesSizes(idx: InvertedIndex)
    requires Tables(idx)
    ensures |idx.ub| == |idx.dfs| == |idx.skipLists| == |idx.terms|
  {
  }

  lemma InRange(ps: seq<Posting>, docs: seq<Doc>, j: nat)
    requires InDocs(ps, docs) && j < |ps|
    ensures ps[j].doc < |docs|
  {
  }

  // ----- a build can be repeated: everything is determined

  lemma SkipUnique(a: SkipList, b: SkipList, ps: seq<Posting>)
    requires ValidList(ps) && Describes(a, ps) && Describes(b, ps)
    requires forall i :: 0 <= i < FullBlocks(ps) ==> a.l0Impact[i] == b.l0Impact[i]
    ensures a == b
  {
    hide ValidList, Offset, Base;
    assert a.l0DocIDs == b.l0DocIDs && a.l0Offsets == b.l0Offsets && a.l0Bases == b.l0Bases;
    SameShape(a, b);
  }

  lemma BoundsUnique(ub: real, skip: Option<SkipList>, ub': real, skip': Option<SkipList>, k: BuildScoring, docs: seq<Doc>, ps: seq<Posting>)
    requires ValidList(ps) && InDocs(ps, docs)
    requires TermBounds(ub, skip, k, docs, ps) && TermBounds(ub', skip', k, docs, ps)
    ensures ub == ub' && skip == skip'
  {
    hide ValidList, InDocs, MaxImpact, Offset, Base;
    if skip.Some? {
      assert forall i :: 0 <= i < FullBlocks(ps) ==> skip.value.l0Impact[i] == skip'.value.l0Impact[i];
      SkipUnique(skip.value, skip'.value, ps);
    }
  }

  lemma SameBag(a: seq<gostring>, b: seq<gostring>)
    requires forall i, j :: 0 <= i < j < |a| ==> a[i] != a[j]
    requires forall i, j :: 0 <= i < j < |b| ==> b[i] != b[j]
    requires forall t :: t in a <==> t in b
    ensures multiset(a) == multiset(b)
  {
    forall t ensures multiset(a)[t] == multiset(b)[t] {
      OnceEach(a, t);
      OnceEach(b, t);
      assert t in multiset(a) <==> t in a;
      assert t in multiset(b) <==> t in b;
    }
  }

  lemma SameTerms(a: seq<gostring>, b: seq<gostring>, vocabulary: set<gostring>)
    requires SortedTerms(a, vocabulary) && SortedTerms(b, vocabulary)
    ensures a == b
  {
    SameBag(a, b);
    SortedStringsUnique(a, b);
  }

  lemma SameMaps(a: InvertedIndex, b: InvertedIndex)
    requires Tables(a) && Tables(b) && a.terms == b.terms && a.docIDs == b.docIDs && a.N == b.N
    ensures a.termIndex == b.termIndex && a.docIDIndex == b.docIDIndex
  {
    forall t ensures t in a.termIndex <==> t in b.termIndex {
      if t in a.termIndex { assert b.terms[a.termIndex[t]] == t; }
      if t in b.termIndex { assert a.terms[b.termIndex[t]] == t; }
    }
    assert a.termIndex.Keys == b.termIndex.Keys;
    SameIDs(a, b);
  }

  lemma SameLengths(a: InvertedIndex, b: InvertedIndex, docs: seq<Doc>)
    requires Tables(a) && Tables(b) && a.docIDs == b.docIDs && |a.docIDs| == |docs| && a.docIDIndex == b.docIDIndex
    requires forall d :: 0 <= d < |docs| ==> a.docIDs[d] == docs[d].docID
    requires a.docLengths.Keys == a.docIDIndex.Keys && b.docLengths.Keys == b.docIDIndex.Keys
    requires forall d :: 0 <= d < |docs| ==> docs[d].docID in a.docLengths && a.docLengths[docs[d].docID] == docs[d].len
    requires forall d :: 0 <= d < |docs| ==> docs[d].docID in b.docLengths && b.docLengths[docs[d].docID] == docs[d].len
    ensures a.docLengths == b.docLengths
  {
    forall s | s in a.docLengths ensures a.docLengths[s] == b.docLengths[s] {
      assert s in a.docIDIndex.Keys;
      var d := a.docIDIndex[s];
      assert docs[d].docID == s;
    }
  }

  /** There is only one index of given documents and terms, so building again gives the same index. */
  lemma BuiltUnique(a: InvertedIndex, b: InvertedIndex, docs: seq<Doc>, vocabulary: set<gostring>, k: BuildScoring)
    requires Small(docs) && IsIndexOf(a, docs, vocabulary, k) && IsIndexOf(b, docs, vocabulary, k)
    ensures a == b
  {
    SameTerms(a.terms, b.terms, vocabulary);
    SameColumns(a, b, docs, vocabulary, k);
    assert a.docIDs == b.docIDs;
    SameMaps(a, b);
    SameLengths(a, b, docs);
  }

  lemma SameColumns(a: InvertedIndex, b: InvertedIndex, docs: seq<Doc>, vocabulary: set<gostring>, k: BuildScoring)
    requires Small(docs) && IsIndexOf(a, docs, vocabulary, k) && IsIndexOf(b, docs, vocabulary, k) && a.terms == b.terms
    ensures a.data == b.data && a.offsets == b.offsets && a.dfs == b.dfs && a.skipLists == b.skipLists && a.ub == b.ub
    ensures a.docIDs == b.docIDs
  {
    hide ListUpTo, ValidList, InDocs, Describes, AvgLen, MaxImpact, SortedTerms, DistinctIDs, EncodeList, TermBounds, Tables;
    TablesSizes(a);
    TablesSizes(b);
    var lists := Lists(docs, a.terms);
    forall o | 0 <= o < |a.terms| ensures a.ub[o] == b.ub[o] && a.skipLists[o] == b.skipLists[o] {
      BoundsUnique(a.ub[o], a.skipLists[o], b.ub[o], b.skipLists[o], k, docs, lists[o]);
    }
    SameDocs(a, b, docs, vocabulary, k);
  }

  lemma SameDocs(a: InvertedIndex, b: InvertedIndex, docs: seq<Doc>, vocabulary: set<gostring>, k: BuildScoring)
    requires Small(docs)
    requires IsIndexOf(a, docs, vocabulary, k) && IsIndexOf(b, docs, vocabulary, k)
    ensures a.docIDs == b.docIDs
  {
    hide ListUpTo, ValidList, InDocs, AvgLen, SortedTerms, DistinctIDs, TermBounds, Joined;
  }

  // ----- the last version of a document wins

  /** The postings the index gives for a term; none when it does not list the term. */
  ghost function PostingsOf(idx: InvertedIndex, docs: seq<Doc>, t: gostring): seq<Posting> {
    if t in idx.termIndex then TermList(docs, t) else []
  }

  lemma {:induction false} NoPostings(docs: seq<Doc>, t: gostring, n: nat)
    requires n <= |docs| && forall d :: 0 <= d < n ==> t !in docs[d].tfs
    ensures ListUpTo(docs, t, n) == []
  {
    if n > 0 { NoPostings(docs, t, n - 1); }
  }

  /** The terms of the documents are among the vocabulary. */
  ghost predicate Covers(vocabulary: set<gostring>, docs: seq<Doc>) {
    forall d, t :: 0 <= d < |docs| && t in docs[d].tfs ==> t in vocabulary
  }

  lemma InVocabulary(idx: InvertedIndex, docs: seq<Doc>, vocabulary: set<gostring>, k: BuildScoring, t: gostring)
    requires Small(docs) && IsIndexOf(idx, docs, vocabulary, k)
    ensures t in idx.termIndex <==> t in vocabulary
  {
    hide ListUpTo, ValidList, InDocs, AvgLen, DistinctIDs, TermBounds, Joined;
    if t in idx.termIndex { assert idx.terms[idx.termIndex[t]] == t; }
    if t in vocabulary {
      assert t in idx.terms;
      var i :| 0 <= i < |idx.terms| && idx.terms[i] == t;
    }
  }

  lemma PostingsAre(idx: InvertedIndex, docs: seq<Doc>, vocabulary: set<gostring>, k: BuildScoring, t: gostring)
    requires Small(docs) && IsIndexOf(idx, docs, vocabulary, k) && Covers(vocabulary, docs)
    ensures PostingsOf(idx, docs, t) == TermList(docs, t)
  {
    hide IsIndexOf, ListUpTo;
    InVocabulary(idx, docs, vocabulary, k, t);
    if t !in vocabulary { NoPostings(docs, t, |docs|); }
  }

  /** Documents with the same postings for every term have the same terms. */
  lemma PostingsTell(a: seq<Doc>, b: seq<Doc>, d: nat, t: gostring)
    requires |a| == |b| && d < |a| && TermList(a, t) == TermList(b, t) && t in b[d].tfs
    ensures t in a[d].tfs
  {
    assert Posting(d, b[d].tfs[t]) in TermList(b, t);
    var j :| 0 <= j < |TermList(a, t)| && TermList(a, t)[j] == Posting(d, b[d].tfs[t]);
  }

  /**
   An index built from all versions and one built from the last versions only,
   whose vocabulary may be smaller, have the same documents, lengths, count and
   average; they have the same postings exactly when nothing is cut.
   */
  lemma LastAddWins(docs: seq<Doc>, a: InvertedIndex, va: set<gostring>, b: InvertedIndex, vb: set<gostring>, k: BuildScoring)
    requires Small(LastVersions(docs)) && Small(Indexed(docs))
    requires IsIndexOf(a, Indexed(docs), va, k) && IsIndexOf(b, LastVersions(docs), vb, k)
    requires Covers(va, Indexed(docs)) && Covers(vb, LastVersions(docs))
    ensures a.docIDs == b.docIDs && a.docIDIndex == b.docIDIndex && a.docLengths == b.docLengths
    ensures a.N == b.N && a.avgDocLen == b.avgDocLen
    ensures (forall t :: PostingsOf(a, Indexed(docs), t) == PostingsOf(b, LastVersions(docs), t)) <==> NothingCut(docs)
  {
    hide Covers, LastVersions, Indexed, NothingCut, Small, IsIndexOf, PostingsOf;
    var all, last := Indexed(docs), LastVersions(docs);
    IndexedTable(docs);
    IndexedIsLast(docs);
    SameDocTables(all, a, va, last, b, vb, k);
    forall t ensures PostingsOf(a, all, t) == TermList(all, t) && PostingsOf(b, last, t) == TermList(last, t) {
      PostingsAre(a, all, va, k, t);
      PostingsAre(b, last, vb, k, t);
    }
    if forall t :: PostingsOf(a, all, t) == PostingsOf(b, last, t) {
      forall t ensures TermList(all, t) == TermList(last, t) {
        assert PostingsOf(a, all, t) == PostingsOf(b, last, t);
      }
      NothingMissing(docs);
    }
  }

  lemma NothingMissing(docs: seq<Doc>)
    requires forall t :: TermList(Indexed(docs), t) == TermList(LastVersions(docs), t)
    ensures NothingCut(docs)
  {
    hide LastVersions, TermList;
    var lv := LastVersions(docs);
    IndexedTable(docs);
    forall d | INT32_LIMIT <= d < |lv| && !DistinctIDs(docs) ensures lv[d].tfs == map[] {
      forall t ensures t !in lv[d].tfs {
        if t in lv[d].tfs { PostingsTell(Indexed(docs), lv, d, t); }
      }
    }
  }

  lemma SameDocTables(docs: seq<Doc>, a: InvertedIndex, va: set<gostring>, docs': seq<Doc>, b: InvertedIndex, vb: set<gostring>, k: BuildScoring)
    requires Small(docs) && Small(docs') && IsIndexOf(a, docs, va, k) && IsIndexOf(b, docs', vb, k)
    requires |docs| == |docs'| && forall d :: 0 <= d < |docs| ==> docs[d].docID == docs'[d].docID && docs[d].len == docs'[d].len
    ensures a.docIDs == b.docIDs && a.docIDIndex == b.docIDIndex && a.docLengths == b.docLengths
    ensures a.N == b.N && a.avgDocLen == b.avgDocLen
  {
    hide ListUpTo, ValidList, InDocs, TotalLen, DistinctIDs, TermBounds, Joined, SortedTerms, Small;
    TotalSame(docs, docs');
    SameIDs(a, b);
    SameLengths(a, b, docs);
  }

  lemma SameIDs(a: InvertedIndex, b: InvertedIndex)
    requires Tables(a) && Tables(b) && a.N == b.N && forall d :: 0 <= d < a.N ==> a.docIDs[d] == b.docIDs[d]
    ensures a.docIDs == b.docIDs && a.docIDIndex == b.docIDIndex
  {
    assert a.docIDs == b.docIDs;
    forall s ensures s in a.docIDIndex <==> s in b.docIDIndex {
      if s in a.docIDIndex { assert b.docIDs[a.docIDIndex[s]] == s; }
      if s in b.docIDIndex { assert a.docIDs[b.docIDIndex[s]] == s; }
    }
    assert a.docIDIndex.Keys == b.docIDIndex.Keys;
  }

  // ----- the stored bounds hold for the scorer the index was built with

  /** 2^-126 and (2 - 2^-23) * 2^127: the least normal and the largest 32-bit float. */
  const MIN_NORMAL: real := 1.0 / 85070591730234615865843651857942052864.0
  const MAX_FLOAT32: real := 340282346638528859811704183484516925440.0

  /** A score whose 32-bit float is as precise as the format allows. */
  ghost predicate Storable(x: real) {
    x == 0.0 || MIN_NORMAL <= x <= MAX_FLOAT32
  }

  /** Rounding such a score loses less than the margin. */
  ghost predicate RoundsWell(round32: real -> real) {
    forall x: real {:trigger round32(x)} :: Storable(x) ==> round32(x) >= 0.0 && x <= round32(x) * MARGIN
  }

  /**
   What scoring a posting is asked for when an index is built: the frequency is
   at most the length, between one and n of the n documents hold the term, and
   the average length goes with a document of length dl.
   */
  ghost predicate Arises(tf: nat, df: nat, dl: nat, avg: real, n: nat) {
    1 <= tf <= dl && 1 <= df <= n < 0x1_0000_0000 && avg > 0.0 && dl as real <= avg * (n as real)
  }

  /** The query scorer is the build scorer, and its scores can be stored. */
  ghost predicate SameScorer(scorer: Scorer, k: BuildScoring) {
    forall tf: nat, df: nat, dl: nat, avg: real, n: nat {:trigger k.scoreTerm(tf, df, dl, avg, n)} ::
      Arises(tf, df, dl, avg, n) ==>
        scorer.withIDF(tf, scorer.idf(df, n), dl, avg) == k.scoreTerm(tf, df, dl, avg, n) && Storable(k.scoreTerm(tf, df, dl, avg, n))
  }

  /** Frequencies count tokens of the document. */
  ghost predicate Counted(docs: seq<Doc>) {
    forall i :: 0 <= i < |docs| ==> CountedDoc(docs[i])
  }

  ghost predicate CountedDoc(d: Doc) {
    forall t :: t in d.tfs ==> 1 <= d.tfs[t] <= d.len
  }

  lemma BuiltIsBounded(idx: InvertedIndex, docs: seq<Doc>, vocabulary: set<gostring>, k: BuildScoring, scorer: Scorer)
    requires Small(docs) && IsIndexOf(idx, docs, vocabulary, k) && SameScorer(scorer, k) && RoundsWell(k.round32) && Counted(docs)
    ensures Represents(idx, Lists(docs, idx.terms)) && Bounded(idx, Lists(docs, idx.terms), scorer)
  {
    hide IsIndexOf, Represents, ListUpTo, SameScorer, RoundsWell, Counted;
    BuiltRepresents(idx, docs, vocabulary, k);
    var lists := Lists(docs, idx.terms);
    forall o | 0 <= o < |lists| ensures TermBounded(idx, lists, scorer, o) {
      TermIsBounded(idx, docs, vocabulary, k, scorer, o);
    }
  }

  lemma {:induction false} ListSize(docs: seq<Doc>, t: gostring, n: nat)
    requires n <= |docs|
    ensures |ListUpTo(docs, t, n)| <= n
  {
    if n > 0 { ListSize(docs, t, n - 1); }
  }

  lemma {:induction false} LenWithin(docs: seq<Doc>, d: nat)
    requires d < |docs|
    ensures docs[d].len <= TotalLen(docs)
  {
    var last := |docs| - 1;
    if d < last { LenWithin(docs[..last], d); }
  }

  lemma AverageFits(docs: seq<Doc>, d: nat)
    requires d < |docs| && docs[d].len > 0
    ensures AvgLen(docs) > 0.0 && docs[d].len as real <= AvgLen(docs) * (|docs| as real)
  {
    LenWithin(docs, d);
    var total, n := TotalLen(docs) as real, |docs| as real;
    assert total / n * n == total;
  }

  /** Scoring posting j of a term's list is asked for with arguments a build gives. */
  lemma PostingArises(docs: seq<Doc>, t: gostring, j: nat)
    requires Small(docs) && Counted(docs) && j < |TermList(docs, t)|
    ensures InDocs(TermList(docs, t), docs)
    ensures var ps := TermList(docs, t); Arises(ps[j].tf, |ps|, docs[ps[j].doc].len, AvgLen(docs), |docs|)
  {
    hide AvgLen;
    var ps := TermList(docs, t);
    var d := ps[j].doc;
    assert CountedDoc(docs[d]);
    ListSize(docs, t, |docs|);
    AverageFits(docs, d);
  }

  /** The query scores a posting as the build did. */
  lemma ScoresAgree(idx: InvertedIndex, docs: seq<Doc>, vocabulary: set<gostring>, k: BuildScoring, scorer: Scorer, o: nat, j: nat)
    requires Small(docs) && IsIndexOf(idx, docs, vocabulary, k) && SameScorer(scorer, k) && Counted(docs)
    requires o < |idx.terms| && j < |Lists(docs, idx.terms)[o]|
    ensures InDocs(Lists(docs, idx.terms)[o], docs) && Lists(docs, idx.terms)[o][j].doc < idx.N
    ensures PostingScore(idx, Lists(docs, idx.terms), scorer, o, j) == BuildScore(k, docs, Lists(docs, idx.terms)[o], j)
    ensures Storable(BuildScore(k, docs, Lists(docs, idx.terms)[o], j))
  {
    hide ListUpTo, ValidList, AvgLen, DistinctIDs, TermBounds, Joined, SortedTerms, Counted, Arises, Storable;
    var ps := Lists(docs, idx.terms)[o];
    var d := ps[j].doc;
    assert idx.DocLens()[d] == idx.DocLen(idx.DocStringID(d)) == docs[d].len;
    PostingArises(docs, idx.terms[o], j);
    assert Storable(k.scoreTerm(ps[j].tf, |ps|, docs[d].len, AvgLen(docs), |docs|));
  }

  /** So can the maxima. */
  lemma {:induction false} MaximumStorable(k: BuildScoring, docs: seq<Doc>, ps: seq<Posting>, lo: nat, hi: nat)
    requires lo <= hi <= |ps| && InDocs(ps, docs) && forall j :: 0 <= j < |ps| ==> Storable(BuildScore(k, docs, ps, j))
    ensures Storable(MaxImpact(k, docs, ps, lo, hi))
  {
    hide Storable, BuildScore;
    if lo < hi {
      MaximumStorable(k, docs, ps, lo, hi - 1);
    } else {
      ZeroStorable();
    }
  }

  lemma ZeroStorable()
    ensures Storable(0.0)
  {
  }

  lemma TermIsBounded(idx: InvertedIndex, docs: seq<Doc>, vocabulary: set<gostring>, k: BuildScoring, scorer: Scorer, o: nat)
    requires Small(docs) && IsIndexOf(idx, docs, vocabulary, k) && SameScorer(scorer, k) && RoundsWell(k.round32) && Counted(docs)
    requires Represents(idx, Lists(docs, idx.terms)) && o < |idx.terms|
    ensures TermBounded(idx, Lists(docs, idx.terms), scorer, o)
  {
    hide ListUpTo, ValidList, AvgLen, DistinctIDs, Joined, SortedTerms, SameScorer, RoundsWell, PostingScore, BuildScore, Represents, Tables, Counted, Storable;
    var lists := Lists(docs, idx.terms);
    var ps := lists[o];
    TablesSizes(idx);
    forall j | 0 <= j < |ps| ensures Storable(BuildScore(k, docs, ps, j)) {
      ScoresAgree(idx, docs, vocabulary, k, scorer, o, j);
    }
    forall j | 0 <= j < |ps| ensures 0.0 <= PostingScore(idx, lists, scorer, o, j) <= idx.ub[o] * MARGIN {
      ScoresAgree(idx, docs, vocabulary, k, scorer, o, j);
      StorableIsNonNegative(BuildScore(k, docs, ps, j));
      assert BuildScore(k, docs, ps, j) <= idx.ub[o];
    }
    if idx.skipLists[o].Some? {
      forall j | 0 <= j < |ps| ensures PostingScore(idx, lists, scorer, o, j) == BuildScore(k, docs, ps, j) {
        ScoresAgree(idx, docs, vocabulary, k, scorer, o, j);
      }
      ImpactsBound(idx.ub[o], idx.skipLists[o], docs, k, ps);
    }
  }

  /** A block's rounded impact bounds the scores of its postings. */
  lemma ImpactsBound(ub: real, skip: Option<SkipList>, docs: seq<Doc>, k: BuildScoring, ps: seq<Posting>)
    requires ValidList(ps) && InDocs(ps, docs) && TermBounds(ub, skip, k, docs, ps) && skip.Some? && RoundsWell(k.round32)
    requires forall j :: 0 <= j < |ps| ==> Storable(BuildScore(k, docs, ps, j))
    ensures var impacts := skip.value.l0Impact;
            && |impacts| == FullBlocks(ps) && (forall b :: 0 <= b < |impacts| ==> impacts[b] >= 0.0)
            && forall j :: 0 <= j < 128 * |impacts| ==> BuildScore(k, docs, ps, j) <= impacts[j / 128] * MARGIN
  {
    hide ValidList, RoundsWell, Storable, BuildScore, Offset, Base;
    var impacts := skip.value.l0Impact;
    forall b | 0 <= b < |impacts| ensures impacts[b] >= 0.0 {
      Rounded(k, docs, ps, 128 * b, 128 * b + 128);
    }
    forall j | 0 <= j < 128 * |impacts| ensures BuildScore(k, docs, ps, j) <= impacts[j / 128] * MARGIN {
      var b := j / 128;
      Rounded(k, docs, ps, 128 * b, 128 * b + 128);
      assert BuildScore(k, docs, ps, j) <= MaxImpact(k, docs, ps, 128 * b, 128 * b + 128);
    }
  }

  lemma StorableIsNonNegative(x: real)
    requires Storable(x)
    ensures x >= 0.0
  {
  }

  lemma Rounded(k: BuildScoring, docs: seq<Doc>, ps: seq<Posting>, lo: nat, hi: nat)
    requires lo <= hi <= |ps| && InDocs(ps, docs) && RoundsWell(k.round32)
    requires forall j :: 0 <= j < |ps| ==> Storable(BuildScore(k, docs, ps, j))
    ensures var x := k.round32(MaxImpact(k, docs, ps, lo, hi)); x >= 0.0 && MaxImpact(k, docs, ps, lo, hi) <= x * MARGIN
  {
    hide BuildScore, MaxImpact, Storable;
    MaximumStorable(k, docs, ps, lo, hi);
  }
}
