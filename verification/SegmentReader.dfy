/**
 Reading a parsed segment (internal/segment/reader.go): it answers as the index
 it was written from, with the bounds rounded to 32 bits, and those still hold.
 */
module SegmentReader {
  import opened Options
  import opened Bits
  import opened PostingFormat
  import opened Skips = SkipList
  import opened SkipBytes
  import opened Cache = BlockCache
  import opened Iter = PostingIter
  import opened Index = InvertedIndex
  import opened MaxScoreModel
  import opened QueryTerms
  import opened QueryEntries
  import opened BuiltIndex
  import opened BuiltIndexFacts
  import SegmentContents
  import opened SegmentFile

  // ----- what the reader answers

  function TermUB(seg: Segment, term: gostring): real {
    if term in seg.fst.values && seg.fst.values[term] < |seg.infos| then seg.infos[seg.fst.values[term]].ub else 0.0
  }

  function DF(seg: Segment, term: gostring): nat {
    if term in seg.fst.values && seg.fst.values[term] < |seg.infos| then seg.infos[seg.fst.values[term]].df else 0
  }

  function AvgDocLen(seg: Segment): real {
    if seg.docCount == 0 then 0.0 else (seg.totalTokens as real) / (seg.docCount as real)
  }

  function DocLen(seg: Segment, docID: gostring): nat {
    if docID in seg.docIDToNum && seg.docIDToNum[docID] < |seg.docLens| then seg.docLens[seg.docIDToNum[docID]] else 0
  }

  function DocLenByNum(seg: Segment, numID: nat): nat {
    if numID >= |seg.docLens| then 0 else seg.docLens[numID]
  }

  function DocStringID(seg: Segment, numID: nat): gostring {
    if numID >= seg.docCount || numID >= |seg.docIDs| then [] else seg.docIDs[numID]
  }

  /** The index with its term bounds rounded. */
  function WithRounded(idx: InvertedIndex, round32: real -> real): InvertedIndex {
    idx.(ub := seq(|idx.ub|, o requires 0 <= o < |idx.ub| => round32(idx.ub[o])))
  }

  /** Everything a search asks a reader for, but the iterators. */
  ghost predicate Presents(seg: Segment, idx: InvertedIndex) {
    && (forall t :: t in idx.termIndex ==>
          idx.termIndex[t] < |idx.ub| == |idx.dfs| && TermUB(seg, t) == idx.ub[idx.termIndex[t]] && DF(seg, t) == idx.dfs[idx.termIndex[t]])
    && (forall t :: t !in idx.termIndex ==> TermUB(seg, t) == 0.0 && DF(seg, t) == 0)
    && seg.docCount == idx.N && AvgDocLen(seg) == idx.avgDocLen
    && |idx.docIDs| == idx.N && (forall d: nat :: DocStringID(seg, d) == (if d < idx.N then idx.docIDs[d] else []))
    && (forall d: nat :: DocLenByNum(seg, d) == if d < idx.N && idx.docIDs[d] in idx.docLengths then idx.docLengths[idx.docIDs[d]] else 0)
    && (forall s :: s in idx.docIDIndex ==> DocLen(seg, s) == if s in idx.docLengths then idx.docLengths[s] else 0)
  }

  // ----- the segment of a built index

  /** The formats behave: a rounded number is a 32-bit float, and a dictionary of sorted terms loads as it was built. */
  ghost predicate FormatsWork(fm: Formats) {
    && (forall x: real {:trigger fm.round32(x)} :: fm.f.unbits(fm.f.bits(fm.round32(x))) == fm.round32(x))
    && forall terms {:trigger fm.build(terms)} ::
         SortedTerms(terms, set t | t in terms) ==> fm.load(fm.build(terms)) == Some(Fst(terms, Numbers(terms, |terms|)))
  }

  /** The file is below 2^64 bytes, and dictionary, IDs and lengths fit 32-bit numbers. */
  ghost predicate SizesFit(idx: InvertedIndex, fm: Formats)
    requires Writable(idx)
  {
    && |FileBytes(idx, fm)| < U64 && |fm.build(idx.terms)| < 0x1_0000_0000
    && forall d :: 0 <= d < idx.N ==> idx.DocLens()[d] < 0x1_0000_0000 && |idx.docIDs[d]| < 0x1_0000_0000
  }

  lemma BuiltIsWritable(idx: InvertedIndex, docs: seq<Doc>, vocabulary: set<gostring>, k: BuildScoring)
    requires Small(docs) && IsIndexOf(idx, docs, vocabulary, k)
    ensures Writable(idx)
  {
    hide IsIndexOf, Represents, Lists;
    BuiltRepresents(idx, docs, vocabulary, k);
    BuiltOffsets(idx, docs, vocabulary, k);
    forall o | 0 <= o < |idx.terms| ensures TermWritable(idx, o) {
      StoredIsWritable(idx, Lists(docs, idx.terms), o);
    }
  }

  lemma BuiltOffsets(idx: InvertedIndex, docs: seq<Doc>, vocabulary: set<gostring>, k: BuildScoring)
    requires Small(docs) && IsIndexOf(idx, docs, vocabulary, k)
    ensures Tables(idx) && (idx.terms != [] ==> |idx.offsets| == |idx.terms| + 1)
  {
    hide SortedTerms, DistinctIDs, Tables, ValidList, InDocs, TermBounds, AvgLen, ListUpTo, Joined;
  }

  lemma StoredIsWritable(idx: InvertedIndex, lists: seq<seq<Posting>>, o: nat)
    requires Represents(idx, lists) && o < |idx.terms|
    ensures TermWritable(idx, o)
  {
    hide ValidList, EncodeList, Offset, Base;
    assert TermStored(idx, o, lists[o]);
  }

  lemma {:induction false} RecordsPrefix(idx: InvertedIndex, fm: Formats, m: nat, n: nat)
    requires Writable(idx) && m <= n <= |idx.terms|
    ensures Records(idx, fm, m) <= Records(idx, fm, n)
  {
    hide Writable, Record;
    WritableSizes(idx);
    if m < n { RecordsPrefix(idx, fm, m, n - 1); }
  }

  /** Term o's part of the posting section is its record. */
  lemma RecordCut(idx: InvertedIndex, fm: Formats, o: nat)
    requires Writable(idx) && o < |idx.terms|
    ensures TermWritable(idx, o)
    ensures var at, all := |Records(idx, fm, o)|, Records(idx, fm, |idx.terms|);
            at + |Record(idx, fm, o)| <= |all| && all[at..at + |Record(idx, fm, o)|] == Record(idx, fm, o)
  {
    hide Writable, Record, TermWritable, SegmentFile.Records;
    WritableSizes(idx);
    var next := o + 1;
    NextRecord(idx, fm, o);
    RecordsPrefix(idx, fm, next, |idx.terms|);
    PartOfPrefix(Records(idx, fm, o), Record(idx, fm, o), Records(idx, fm, |idx.terms|));
  }

  lemma NextRecord(idx: InvertedIndex, fm: Formats, o: nat)
    requires Writable(idx) && o < |idx.terms| && TermWritable(idx, o)
    ensures Records(idx, fm, o + 1) == Records(idx, fm, o) + Record(idx, fm, o)
  {
    hide Writable, Record, TermWritable;
  }

  lemma PartOfPrefix(a: seq<byte>, part: seq<byte>, all: seq<byte>)
    requires a + part <= all
    ensures |a| + |part| <= |all| && all[|a|..|a| + |part|] == part
  {
    assert all[..|a| + |part|] == a + part;
  }

  lemma RecordsInFile(idx: InvertedIndex, fm: Formats)
    requires Writable(idx)
    ensures |Records(idx, fm, |idx.terms|)| <= |FileBytes(idx, fm)|
  {
    hide SegmentFile.Records, Infos, InfosBytes, LensBytes, IDsBytes, FileHeader, InvertedIndex.DocLens, Tables, TermWritable;
  }

  /** Every skip list loads from its bytes as it was. */
  ghost predicate SkipsFit(idx: InvertedIndex, f: Float32)
    requires Writable(idx)
  {
    forall o :: 0 <= o < |idx.terms| ==> SkipFits(idx, f, o)
  }

  ghost predicate SkipFits(idx: InvertedIndex, f: Float32, o: nat)
    requires TermWritable(idx, o)
  {
    idx.skipLists[o].Some? ==> Fits(idx.skipLists[o].value, f) && |idx.skipLists[o].value.l0DocIDs| > 0
  }

  lemma RecordHasList(idx: InvertedIndex, fm: Formats, lists: seq<seq<Posting>>, o: nat)
    requires Represents(idx, lists) && o < |idx.terms| && TermWritable(idx, o)
    ensures ValidList(lists[o]) && RawPost(idx, o) == EncodeList(lists[o]) && |EncodeList(lists[o])| <= |Record(idx, fm, o)|
    ensures idx.dfs[o] == |lists[o]|
  {
    hide ValidList, EncodeList, Bytes, Shaped, Describes;
    assert TermStored(idx, o, lists[o]);
  }

  lemma RecordSizes(idx: InvertedIndex, fm: Formats, lists: seq<seq<Posting>>, o: nat)
    requires Writable(idx) && SizesFit(idx, fm) && Represents(idx, lists) && o < |idx.terms|
    ensures TermWritable(idx, o) && ValidList(lists[o]) && |EncodeList(lists[o])| <= |Record(idx, fm, o)| < U64 && |Records(idx, fm, o)| < U64
    ensures idx.dfs[o] == |lists[o]|
  {
    hide Writable, Record, Records, FileBytes, InvertedIndex.DocLens, Represents;
    RecordCut(idx, fm, o);
    RecordsInFile(idx, fm);
    RecordHasList(idx, fm, lists, o);
  }

  lemma BuiltSkipFits(idx: InvertedIndex, docs: seq<Doc>, vocabulary: set<gostring>, k: BuildScoring, fm: Formats, o: nat)
    requires Small(docs) && IsIndexOf(idx, docs, vocabulary, k) && Writable(idx) && FormatsWork(fm) && SizesFit(idx, fm)
    requires k.round32 == fm.round32 && o < |idx.terms|
    ensures TermWritable(idx, o) && SkipFits(idx, fm.f, o) && InfoFits(Info(idx, fm, o), fm.f)
  {
    hide IsIndexOf, Record, Records, SizesFit, Writable, Lists, Fits, TermBounds, Represents, Describes, ListUpTo, EncodeList, ValidList;
    BuiltRepresents(idx, docs, vocabulary, k);
    WritableSizes(idx);
    RecordSizes(idx, fm, Lists(docs, idx.terms), o);
    ListSize(docs, idx.terms[o], |docs|);
    TermIsBuilt(idx, docs, vocabulary, k, o);
    if idx.skipLists[o].Some? {
      BoundsFit(idx.ub[o], idx.skipLists[o], k, docs, Lists(docs, idx.terms)[o], fm.f);
    }
  }

  lemma TermIsBuilt(idx: InvertedIndex, docs: seq<Doc>, vocabulary: set<gostring>, k: BuildScoring, o: nat)
    requires Small(docs) && IsIndexOf(idx, docs, vocabulary, k) && o < |idx.terms|
    ensures |idx.skipLists| == |idx.ub| == |idx.terms|
    ensures var ps := Lists(docs, idx.terms)[o];
            ps == TermList(docs, idx.terms[o]) && ValidList(ps) && InDocs(ps, docs) && TermBounds(idx.ub[o], idx.skipLists[o], k, docs, ps)
  {
    hide SortedTerms, DistinctIDs, Tables, ValidList, InDocs, TermBounds, AvgLen, ListUpTo, Joined;
    TablesSizes(idx);
  }

  lemma BoundsFit(ub: real, skip: Option<SkipList>, k: BuildScoring, docs: seq<Doc>, ps: seq<Posting>, f: Float32)
    requires ValidList(ps) && InDocs(ps, docs) && TermBounds(ub, skip, k, docs, ps) && skip.Some? && |ps| < 0x1_0000_0000 && |EncodeList(ps)| < U64
    requires forall x: real {:trigger k.round32(x)} :: f.unbits(f.bits(k.round32(x))) == k.round32(x)
    ensures Shaped(skip.value) && Fits(skip.value, f) && |skip.value.l0DocIDs| > 0
  {
    hide ValidList, InDocs, MaxImpact, Offset, Base, EncodeList, Fits;
    DescribedFits(skip.value, ps, f);
  }

  lemma DescribedFits(sl: SkipList, ps: seq<Posting>, f: Float32)
    requires ValidList(ps) && Describes(sl, ps) && 0 < FullBlocks(ps) && |ps| < 0x1_0000_0000 && |EncodeList(ps)| < U64
    requires forall b :: 0 <= b < FullBlocks(ps) ==> b < |sl.l0Impact| && f.unbits(f.bits(sl.l0Impact[b])) == sl.l0Impact[b]
    ensures Shaped(sl) && Fits(sl, f) && |sl.l0DocIDs| > 0
  {
    hide EncodeList, Blocks;
    forall b | 0 <= b < FullBlocks(ps) ensures Offset(ps, b) <= |EncodeList(ps)| {
      OffsetMono(ps, b, b);
    }
  }

  lemma BuiltDictionary(idx: InvertedIndex, docs: seq<Doc>, vocabulary: set<gostring>, k: BuildScoring, fm: Formats)
    requires Small(docs) && IsIndexOf(idx, docs, vocabulary, k) && FormatsWork(fm)
    ensures fm.load(fm.build(idx.terms)) == Some(Fst(idx.terms, idx.termIndex))
  {
    hide DistinctIDs, ValidList, InDocs, TermBounds, AvgLen, ListUpTo, Joined, Tables, Numbers;
    NumbersAreIndex(idx);
    assert SortedTerms(idx.terms, set t | t in idx.terms);
  }

  /** A built index whose sizes fit can be written, and the file parses to its segment. */
  lemma BuiltFileFits(idx: InvertedIndex, docs: seq<Doc>, vocabulary: set<gostring>, k: BuildScoring, fm: Formats)
    requires Small(docs) && IsIndexOf(idx, docs, vocabulary, k) && Writable(idx) && FormatsWork(fm) && SizesFit(idx, fm) && k.round32 == fm.round32
    ensures FileFits(idx, fm) && SkipsFit(idx, fm.f)
  {
    hide IsIndexOf, FileBytes, Writable, InvertedIndex.DocLens, InfoFits, Info, SkipFits, FormatsWork;
    WritableSizes(idx);
    BuiltDictionary(idx, docs, vocabulary, k, fm);
    forall o | 0 <= o < |idx.terms| ensures TermWritable(idx, o) && SkipFits(idx, fm.f, o) && InfoFits(Info(idx, fm, o), fm.f) {
      BuiltSkipFits(idx, docs, vocabulary, k, fm, o);
    }
  }

  lemma {:induction false} TotalIs(lens: seq<nat>, docs: seq<Doc>, n: nat)
    requires |lens| == |docs| && n <= |docs| && forall d :: 0 <= d < n ==> lens[d] == docs[d].len
    ensures Total(lens, n) == TotalLen(docs[..n])
  {
    if n > 0 {
      TotalIs(lens, docs, n - 1);
      assert docs[..n][..n - 1] == docs[..n - 1];
    }
  }

  lemma BuiltLens(idx: InvertedIndex, docs: seq<Doc>, vocabulary: set<gostring>, k: BuildScoring)
    requires Small(docs) && IsIndexOf(idx, docs, vocabulary, k)
    ensures idx.N == |docs| == |idx.docIDs| && idx.avgDocLen == AvgLen(docs) && Tables(idx)
    ensures forall d :: 0 <= d < |docs| ==> idx.DocLens()[d] == docs[d].len
  {
    hide SortedTerms, DistinctIDs, ValidList, InDocs, TermBounds, AvgLen, ListUpTo, Joined;
  }

  /** The segment of a built index answers as the index with rounded bounds does. */
  lemma SegmentPresents(idx: InvertedIndex, docs: seq<Doc>, vocabulary: set<gostring>, k: BuildScoring, fm: Formats)
    requires Small(docs) && IsIndexOf(idx, docs, vocabulary, k) && Writable(idx)
    ensures Presents(Loaded(idx, fm), WithRounded(idx, fm.round32))
  {
    hide IsIndexOf, TermWritable, Record, Records, TotalLen;
    BuiltLens(idx, docs, vocabulary, k);
    TotalIs(idx.DocLens(), docs, |docs|);
    assert docs[..|docs|] == docs;
    TermsPresented(idx, fm);
    DocsPresented(idx, fm);
  }

  lemma TermsPresented(idx: InvertedIndex, fm: Formats)
    requires Writable(idx)
    ensures var seg, r := Loaded(idx, fm), WithRounded(idx, fm.round32);
            && (forall t :: t in r.termIndex ==>
                  r.termIndex[t] < |r.ub| == |r.dfs| && TermUB(seg, t) == r.ub[r.termIndex[t]] && DF(seg, t) == r.dfs[r.termIndex[t]])
            && (forall t :: t !in r.termIndex ==> TermUB(seg, t) == 0.0 && DF(seg, t) == 0)
  {
    hide Record, Records, Total, Numbers, InvertedIndex.DocLens, TermWritable;
  }

  lemma DocsPresented(idx: InvertedIndex, fm: Formats)
    requires Writable(idx)
    ensures var seg, r := Loaded(idx, fm), WithRounded(idx, fm.round32);
            && seg.docCount == r.N && |r.docIDs| == r.N
            && (forall d: nat :: DocStringID(seg, d) == (if d < r.N then r.docIDs[d] else []))
            && (forall d: nat :: DocLenByNum(seg, d) == if d < r.N && r.docIDs[d] in r.docLengths then r.docLengths[r.docIDs[d]] else 0)
            && (forall s :: s in r.docIDIndex ==> DocLen(seg, s) == if s in r.docLengths then r.docLengths[s] else 0)
  {
    hide Record, Records, Infos, Total, Numbers, TermWritable;
  }

  // ----- iterators

  /** A fresh iterator over the term's list, with its skip list loaded from its bytes; None for a term the segment does not have. */
  method Iterator(seg: Segment, fm: Formats, cache: BlockCache?, term: gostring, ghost idx: InvertedIndex, ghost lists: seq<seq<Posting>>)
    returns (it: Option<PostingIter>)
    requires Writable(idx) && FileFits(idx, fm) && SkipsFit(idx, fm.f) && seg == Loaded(idx, fm)
    requires Represents(idx, lists) && CacheAgrees(cache, lists)
    ensures it.Some? == (term in idx.termIndex)
    ensures it.Some? ==>
              var i := it.value;
              && i.Valid() && fresh(i) && fresh(i.docBuf) && fresh(i.tfBuf) && i.read == 0 && i.shallowIdx == 0
              && i.list == lists[idx.termIndex[term]] && i.skip == idx.skipLists[idx.termIndex[term]] && i.blockCache == cache
  {
    hide EncodeList, Describes, DecodedBlock, ValidList, Record, Records, Writable, FileFits, SkipsFit, InvertedIndex.DocLens, PostingIter.Loaded, PostingIter.Empty;
    if term !in seg.fst.values {
      return None;
    }
    var ord := seg.fst.values[term];
    assert TermStored(idx, ord, lists[ord]);
    RecordCut(idx, fm, ord);
    var info := seg.infos[ord];
    var postSlice := seg.postData[info.postingsOffset..info.postingsOffset + info.postingsLen];
    assert postSlice == Record(idx, fm, ord);
    RecordFits(idx, fm, ord);
    var sl, rawPost := OpenRecord(postSlice, fm, idx, ord);
    var i := new PostingIter(rawPost, sl, info.df, cache, ord, lists[ord]);
    it := Some(i);
  }

  lemma RecordFits(idx: InvertedIndex, fm: Formats, o: nat)
    requires Writable(idx) && FileFits(idx, fm) && SkipsFit(idx, fm.f) && o < |idx.terms|
    ensures TermWritable(idx, o) && |Record(idx, fm, o)| < U64 && SkipFits(idx, fm.f, o)
  {
    hide FileBytes, Record, Records, SkipFits, InvertedIndex.DocLens;
    assert InfoFits(Info(idx, fm, o), fm.f);
  }

  /** The length in front of a record tells where its parts lie. */
  lemma RecordOpens(idx: InvertedIndex, fm: Formats, o: nat)
    requires TermWritable(idx, o) && |Record(idx, fm, o)| < U64
    ensures var record, n := Record(idx, fm, o), |SkipData(idx, fm, o)|;
            8 + n <= |record| && LE(record[..8]) == n && record[8..8 + n] == SkipData(idx, fm, o) && record[8 + n..] == RawPost(idx, o)
  {
    hide ToLE, LE, SkipData;
    var record, skip := Record(idx, fm, o), SkipData(idx, fm, o);
    assert record[..8] == ToLE(|skip|, 8) && record[8..8 + |skip|] == skip && record[8 + |skip|..] == RawPost(idx, o);
    FieldBack(|skip|, 8);
  }

  /** Skip data and postings of a term's record. */
  method OpenRecord(postSlice: seq<byte>, fm: Formats, ghost idx: InvertedIndex, ghost o: nat) returns (sl: Option<SkipList>, rawPost: seq<byte>)
    requires Writable(idx) && o < |idx.terms| && TermWritable(idx, o) && postSlice == Record(idx, fm, o) && |postSlice| < U64 && SkipFits(idx, fm.f, o)
    ensures sl == idx.skipLists[o] && rawPost == RawPost(idx, o)
  {
    hide Writable, Record, Bytes, LE, Fits, Shaped;
    RecordOpens(idx, fm, o);
    var skipLen := LE(postSlice[..8]);
    var skipData := postSlice[8..8 + skipLen];
    rawPost := postSlice[8 + skipLen..];
    sl := LoadSkipFromBytes(skipData, fm.f);
    if idx.skipLists[o].Some? {
      HeaderFits(idx.skipLists[o].value, fm.f);
      HeaderBack(idx.skipLists[o].value, fm.f);
      if sl.Some? { SkipRoundTrip(idx.skipLists[o].value, fm.f, sl.value); }
    }
  }

  // ----- what a merge reads

  /** The postings behind a record's skip data. */
  function RawIn(record: seq<byte>): seq<byte> {
    if |record| < 8 || 8 + LE(record[..8]) > |record| then [] else record[8 + LE(record[..8])..]
  }

  function RawAt(seg: Segment, o: nat): seq<byte>
    requires o < |seg.infos|
  {
    var from, to := seg.infos[o].postingsOffset, seg.infos[o].postingsOffset + seg.infos[o].postingsLen;
    if to > |seg.postData| then [] else RawIn(seg.postData[from..to])
  }

  /** The segment as a merge reads it. */
  function MergeView(seg: Segment): SegmentContents.Segment {
    SegmentContents.Segment(
      seg.fst.keys, seg.fst.values, seq(|seg.infos|, o requires 0 <= o < |seg.infos| => RawAt(seg, o)),
      seq<nat>(|seg.infos|, o requires 0 <= o < |seg.infos| => seg.infos[o].df), seg.docIDs, seg.docLens)
  }

  lemma RawIsPost(idx: InvertedIndex, fm: Formats, o: nat)
    requires Writable(idx) && FileFits(idx, fm) && SkipsFit(idx, fm.f) && o < |idx.terms|
    ensures TermWritable(idx, o) && RawAt(Loaded(idx, fm), o) == RawPost(idx, o)
  {
    hide Writable, FileFits, SkipsFit, Record, SegmentFile.Records, RawIn, InvertedIndex.DocLens;
    RecordCut(idx, fm, o);
    RecordFits(idx, fm, o);
    RawInRecord(idx, fm, o);
    assert Infos(idx, fm, |idx.terms|)[o] == Info(idx, fm, o);
  }

  lemma RawInRecord(idx: InvertedIndex, fm: Formats, o: nat)
    requires TermWritable(idx, o) && |Record(idx, fm, o)| < U64
    ensures RawIn(Record(idx, fm, o)) == RawPost(idx, o)
  {
    hide Record, LE, SkipData;
    RecordOpens(idx, fm, o);
  }

  /** The parsed file of a built index is a segment of its documents. */
  lemma FileHolds(idx: InvertedIndex, docs: seq<Doc>, vocabulary: set<gostring>, k: BuildScoring, fm: Formats)
    requires Small(docs) && IsIndexOf(idx, docs, vocabulary, k) && BuiltIndexFacts.Covers(vocabulary, docs)
    requires Writable(idx) && FileFits(idx, fm) && SkipsFit(idx, fm.f)
    ensures SegmentContents.SegmentHolds(MergeView(Loaded(idx, fm)), docs)
  {
    hide IsIndexOf, FileFits, SkipsFit, Writable, SegmentContents.SegmentHolds, Covers, RawAt, TermWritable, SegmentContents.CutAt, SegmentFile.Records;
    SegmentContents.IndexMakesSegment(idx, docs, vocabulary, k);
    BuiltLens(idx, docs, vocabulary, k);
    WritableSizes(idx);
    var view, seg := MergeView(Loaded(idx, fm)), SegmentContents.SegmentOf(idx);
    forall o | 0 <= o < |idx.terms| ensures view.posts[o] == seg.posts[o] {
      RawIsPost(idx, fm, o);
    }
    assert view.posts == seg.posts && view.dfs == seg.dfs && view.docLens == seg.docLens;
  }

  // ----- the rounded bounds still hold

  lemma RoundedRepresents(idx: InvertedIndex, lists: seq<seq<Posting>>, round32: real -> real)
    requires Represents(idx, lists)
    ensures Represents(WithRounded(idx, round32), lists)
  {
    hide ValidList, EncodeList, Describes;
    var r := WithRounded(idx, round32);
    forall o | 0 <= o < |lists| ensures TermStored(r, o, lists[o]) {
      assert TermStored(idx, o, lists[o]);
    }
  }

  /** Searching the segment read back, with the scorer of the build, meets the domination precondition. */
  lemma LoadedIsBounded(idx: InvertedIndex, docs: seq<Doc>, vocabulary: set<gostring>, k: BuildScoring, scorer: Scorer)
    requires Small(docs) && IsIndexOf(idx, docs, vocabulary, k) && SameScorer(scorer, k) && RoundsWell(k.round32) && Counted(docs)
    ensures var r := WithRounded(idx, k.round32); Represents(r, Lists(docs, r.terms)) && Bounded(r, Lists(docs, r.terms), scorer)
  {
    hide IsIndexOf, Represents, ListUpTo, SameScorer, RoundsWell, Counted, TermBounded;
    var lists, r := Lists(docs, idx.terms), WithRounded(idx, k.round32);
    BuiltIsBounded(idx, docs, vocabulary, k, scorer);
    RoundedRepresents(idx, lists, k.round32);
    forall o | 0 <= o < |lists| ensures TermBounded(r, lists, scorer, o) {
      assert TermBounded(idx, lists, scorer, o);
      RoundedTermBounded(idx, docs, vocabulary, k, scorer, o);
    }
  }

  /** One rounding costs no more than the margin, since the bound in memory is the exact maximum. */
  lemma RoundedTermBounded(idx: InvertedIndex, docs: seq<Doc>, vocabulary: set<gostring>, k: BuildScoring, scorer: Scorer, o: nat)
    requires Small(docs) && IsIndexOf(idx, docs, vocabulary, k) && SameScorer(scorer, k) && RoundsWell(k.round32) && Counted(docs)
    requires Represents(idx, Lists(docs, idx.terms)) && o < |idx.terms| && TermBounded(idx, Lists(docs, idx.terms), scorer, o)
    requires Represents(WithRounded(idx, k.round32), Lists(docs, idx.terms))
    ensures TermBounded(WithRounded(idx, k.round32), Lists(docs, idx.terms), scorer, o)
  {
    hide IsIndexOf, Represents, ListUpTo, SameScorer, RoundsWell, Counted, PostingScore, BuildScore, Storable, Lists;
    var lists, r := Lists(docs, idx.terms), WithRounded(idx, k.round32);
    var ps := lists[o];
    TermIsBuilt(idx, docs, vocabulary, k, o);
    BuiltLens(idx, docs, vocabulary, k);
    forall j | 0 <= j < |ps| ensures Storable(BuildScore(k, docs, ps, j)) {
      ScoresAgree(idx, docs, vocabulary, k, scorer, o, j);
    }
    Rounded(k, docs, ps, 0, |ps|);
    forall j | 0 <= j < |ps| ensures PostingScore(r, lists, scorer, o, j) == PostingScore(idx, lists, scorer, o, j) <= r.ub[o] * MARGIN {
      ScoresAgree(idx, docs, vocabulary, k, scorer, o, j);
      SameScores(idx, lists, scorer, k.round32, o, j);
    }
  }

  lemma SameScores(idx: InvertedIndex, lists: seq<seq<Posting>>, scorer: Scorer, round32: real -> real, o: nat, j: nat)
    requires o < |lists| && j < |lists[o]| && lists[o][j].doc < idx.N
    ensures PostingScore(WithRounded(idx, round32), lists, scorer, o, j) == PostingScore(idx, lists, scorer, o, j)
  {
    assert WithRounded(idx, round32).DocLens() == idx.DocLens();
  }
}
