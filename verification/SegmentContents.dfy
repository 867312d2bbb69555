/** What a segment holds, and which version of a document a merge keeps (internal/segment/merge.go). */
module SegmentContents {
  import opened Options
  import opened Bits
  import opened RadixSort
  import opened PostingFormat
  import opened Index = InvertedIndex
  import opened BuiltIndex
  import opened BuiltIndexFacts
  import opened TermSlices

  /** A loaded segment: its terms in order, their ordinals, posting bytes and frequencies, and its documents. */
  datatype Segment = Segment(
    terms: seq<gostring>,
    ordinals: map<gostring, nat>,
    posts: seq<seq<byte>>,
    dfs: seq<nat>,
    docIDs: seq<gostring>,
    docLens: seq<nat>)

  /** seg is the segment of docs. */
  ghost predicate SegmentHolds(seg: Segment, docs: seq<Doc>) {
    && Small(docs) && DistinctIDs(docs)
    && |seg.docIDs| == |seg.docLens| == |docs|
    && (forall i :: 0 <= i < |docs| ==> seg.docIDs[i] == docs[i].docID && seg.docLens[i] == docs[i].len)
    && TermsHeld(seg, docs)
  }

  ghost predicate TermsHeld(seg: Segment, docs: seq<Doc>)
    requires Small(docs)
  {
    && |seg.posts| == |seg.dfs| == |seg.terms| && SortedStrictly(seg.terms)
    && (forall o :: 0 <= o < |seg.terms| ==> seg.terms[o] in seg.ordinals && seg.ordinals[seg.terms[o]] == o)
    && (forall o :: 0 <= o < |seg.terms| ==> ListHeld(seg, docs, o))
    && (forall d :: 0 <= d < |docs| ==> TermsIn(docs[d], seg.terms))
  }

  ghost predicate TermsIn(d: Doc, terms: seq<gostring>) {
    forall t :: t in d.tfs ==> t in terms
  }

  ghost predicate ListHeld(seg: Segment, docs: seq<Doc>, o: nat)
    requires Small(docs) && o < |seg.terms| == |seg.posts| == |seg.dfs|
  {
    var ps := TermList(docs, seg.terms[o]);
    ValidList(ps) && seg.posts[o] == EncodeList(ps) && seg.dfs[o] == |ps|
  }

  ghost predicate SortedStrictly(terms: seq<gostring>) {
    forall i, j :: 0 <= i < j < |terms| ==> LexLe(terms[i], terms[j]) && terms[i] != terms[j]
  }

  /** The offsets cut the data into one slice per term. */
  predicate Cuts(idx: InvertedIndex) {
    && |idx.terms| == |idx.dfs| && (|idx.terms| > 0 ==> |idx.offsets| == |idx.terms| + 1)
    && forall o :: 0 <= o < |idx.terms| ==> CutAt(idx, o)
  }

  predicate CutAt(idx: InvertedIndex, o: nat) {
    o + 1 < |idx.offsets| && idx.offsets[o] <= idx.offsets[o + 1] <= |idx.data|
  }

  /** The segment written from a built index. */
  function SegmentOf(idx: InvertedIndex): Segment
    requires Cuts(idx)
  {
    Segment(idx.terms, idx.termIndex, seq(|idx.terms|, o requires 0 <= o < |idx.terms| => Slice(idx, o)),
            idx.dfs, idx.docIDs, seq<nat>(|idx.docIDs|, d requires 0 <= d < |idx.docIDs| => idx.DocLen(idx.docIDs[d])))
  }

  function Slice(idx: InvertedIndex, o: nat): seq<byte>
    requires Cuts(idx) && o < |idx.terms|
  {
    assert CutAt(idx, o);
    idx.data[idx.offsets[o]..idx.offsets[o + 1]]
  }

  /** A built index makes a segment of its documents. */
  lemma IndexMakesSegment(idx: InvertedIndex, docs: seq<Doc>, vocabulary: set<gostring>, k: BuildScoring)
    requires Small(docs) && IsIndexOf(idx, docs, vocabulary, k) && BuiltIndexFacts.Covers(vocabulary, docs)
    ensures Cuts(idx) && SegmentHolds(SegmentOf(idx), docs)
  {
    hide ListUpTo, AvgLen, TermBounds, Joined, ValidList, InDocs, EncodeList, DistinctIDs, TermStored, IsIndexOf, TermsIn, BuiltIndexFacts.Covers, CutAt;
    IndexCuts(idx, docs, vocabulary, k);
    BuiltFacts(idx, docs, vocabulary, k);
    var seg := SegmentOf(idx);
    forall o | 0 <= o < |idx.terms| ensures ListHeld(seg, docs, o) {
      BuiltRepresents(idx, docs, vocabulary, k);
      StoredFacts(idx, Lists(docs, idx.terms), o);
    }
  }

  lemma IndexCuts(idx: InvertedIndex, docs: seq<Doc>, vocabulary: set<gostring>, k: BuildScoring)
    requires Small(docs) && IsIndexOf(idx, docs, vocabulary, k) && BuiltIndexFacts.Covers(vocabulary, docs)
    ensures Cuts(idx)
  {
    hide *;
    hide Represents;
    BuiltRepresents(idx, docs, vocabulary, k);
    BuiltFacts(idx, docs, vocabulary, k);
    CutsFrom(idx, Lists(docs, idx.terms));
  }

  lemma CutsFrom(idx: InvertedIndex, lists: seq<seq<Posting>>)
    requires Represents(idx, lists) && |lists| == |idx.terms| == |idx.dfs|
    requires |idx.terms| > 0 ==> |idx.offsets| == |idx.terms| + 1
    ensures Cuts(idx)
  {
    hide Represents;
    forall o | 0 <= o < |idx.terms| ensures CutAt(idx, o) {
      StoredFacts(idx, lists, o);
    }
  }

  lemma StoredFacts(idx: InvertedIndex, lists: seq<seq<Posting>>, o: nat)
    requires Represents(idx, lists) && o < |lists|
    ensures ValidList(lists[o]) && o + 1 < |idx.offsets| && o < |idx.dfs| && idx.offsets[o] <= idx.offsets[o + 1] <= |idx.data|
    ensures idx.data[idx.offsets[o]..idx.offsets[o + 1]] == EncodeList(lists[o]) && idx.dfs[o] == |lists[o]|
  {
    assert TermStored(idx, o, lists[o]);
  }

  lemma BuiltFacts(idx: InvertedIndex, docs: seq<Doc>, vocabulary: set<gostring>, k: BuildScoring)
    requires Small(docs) && IsIndexOf(idx, docs, vocabulary, k) && BuiltIndexFacts.Covers(vocabulary, docs)
    ensures |idx.terms| == |idx.dfs| && (|idx.terms| > 0 ==> |idx.offsets| == |idx.terms| + 1)
    ensures DistinctIDs(docs) && SortedStrictly(idx.terms) && |idx.docIDs| == |docs|
    ensures forall o :: 0 <= o < |idx.terms| ==> idx.terms[o] in idx.termIndex && idx.termIndex[idx.terms[o]] == o
    ensures forall d :: 0 <= d < |docs| ==> TermsIn(docs[d], idx.terms)
    ensures forall d :: 0 <= d < |docs| ==> idx.docIDs[d] == docs[d].docID && idx.DocLen(idx.docIDs[d]) == docs[d].len
  {
    hide ListUpTo, AvgLen, TermBounds, Joined, ValidList, InDocs, EncodeList, DistinctIDs;
  }

  // ----- which version survives

  ghost predicate HasID(docs: seq<Doc>, id: gostring) {
    exists i :: 0 <= i < |docs| && docs[i].docID == id
  }

  /** The last of the first n segments that holds the document, -1 when none does. */
  ghost function LastHolder(contents: seq<seq<Doc>>, id: gostring, n: nat): (s: int)
    requires n <= |contents|
    ensures -1 <= s < n
    ensures s >= 0 ==> HasID(contents[s], id)
    ensures forall k :: s < k < n ==> !HasID(contents[k], id)
  {
    if n == 0 then -1 else if HasID(contents[n - 1], id) then n - 1 else LastHolder(contents, id, n - 1)
  }

  /** d is what the merge keeps: not tombstoned, and from the last segment that holds its document. */
  ghost predicate Survives(contents: seq<seq<Doc>>, tombstones: set<gostring>, d: Doc) {
    d.docID !in tombstones
    && exists s :: 0 <= s < |contents| && d in contents[s] && forall k :: s < k < |contents| ==> !HasID(contents[k], d.docID)
  }
}
