/** The immutable inverted index (internal/index/inverted.go) and its lookups. */
module InvertedIndex {
  import opened Options
  import opened Bits
  import opened PostingFormat
  import opened Skips = SkipList
  import opened Cache = BlockCache
  import opened Iter = PostingIter

  datatype InvertedIndex = InvertedIndex(
    termIndex: map<gostring, nat>,
    terms: seq<gostring>,
    data: seq<byte>,
    offsets: seq<nat>,
    dfs: seq<nat>,
    skipLists: seq<Option<SkipList>>,
    ub: seq<real>,
    docIDs: seq<gostring>,
    docIDIndex: map<gostring, nat>,
    docLengths: map<gostring, nat>,
    avgDocLen: real,
    N: nat)
  {
    function TermUB(term: gostring): real {
      if term in termIndex && termIndex[term] < |ub| then ub[termIndex[term]] else 0.0
    }

    function DF(term: gostring): nat {
      if term in termIndex && termIndex[term] < |dfs| then dfs[termIndex[term]] else 0
    }

    function DocLen(docID: gostring): nat {
      if docID in docLengths then docLengths[docID] else 0
    }

    function DocStringID(numID: nat): gostring {
      if numID >= |docIDs| then [] else docIDs[numID]
    }

    /** The lengths of documents 0, ..., N - 1. */
    function DocLens(): (lens: seq<nat>)
      ensures |lens| == N
      ensures forall d :: 0 <= d < N && d < |docIDs| ==> lens[d] == if docIDs[d] in docLengths then docLengths[docIDs[d]] else 0
    {
      seq<nat>(N, d requires 0 <= d < N => DocLen(DocStringID(d)))
    }
  }

  /** Term ord's bytes encode its list and its skip list, if any, describes that list. */
  ghost predicate TermStored(idx: InvertedIndex, ord: nat, ps: seq<Posting>) {
    && ValidList(ps) && ord < |idx.dfs| && ord < |idx.skipLists| && ord + 1 < |idx.offsets|
    && idx.dfs[ord] == |ps|
    && idx.offsets[ord] <= idx.offsets[ord + 1] <= |idx.data|
    && idx.data[idx.offsets[ord]..idx.offsets[ord + 1]] == EncodeList(ps)
    && (idx.skipLists[ord].Some? ==> Describes(idx.skipLists[ord].value, ps))
  }

  /** The tables agree with each other. */
  ghost predicate Tables(idx: InvertedIndex) {
    && (forall t :: t in idx.termIndex ==> idx.termIndex[t] < |idx.terms| && idx.terms[idx.termIndex[t]] == t)
    && (forall o :: 0 <= o < |idx.terms| ==> idx.terms[o] in idx.termIndex && idx.termIndex[idx.terms[o]] == o)
    && |idx.ub| == |idx.dfs| == |idx.skipLists| == |idx.terms| && |idx.docIDs| == idx.N < 0x1_0000_0000
    && (forall s :: s in idx.docIDIndex ==> idx.docIDIndex[s] < idx.N && idx.docIDs[idx.docIDIndex[s]] == s)
    && (forall d :: 0 <= d < idx.N ==> idx.docIDs[d] in idx.docIDIndex && idx.docIDIndex[idx.docIDs[d]] == d)
  }

  /** idx stores lists[o] for the term of ordinal o. */
  ghost predicate Represents(idx: InvertedIndex, lists: seq<seq<Posting>>) {
    && Tables(idx) && |lists| == |idx.terms|
    && (forall o :: 0 <= o < |lists| ==> TermStored(idx, o, lists[o]))
    && (forall o, j :: 0 <= o < |lists| && 0 <= j < |lists[o]| ==> lists[o][j].doc < idx.N)
  }

  /** The cached blocks of every term are what decoding its list gives. */
  ghost predicate CacheAgrees(cache: BlockCache?, lists: seq<seq<Posting>>)
    requires forall o :: 0 <= o < |lists| ==> ValidList(lists[o])
  {
    cache != null ==>
      forall o, b {:trigger Key(o, b)} :: 0 <= o < |lists| && 0 <= b < FullBlocks(lists[o]) ==>
        Key(o, b) in cache.truth && cache.truth[Key(o, b)] == DecodedBlock(lists[o], b)
  }

  /** A fresh iterator over the term's list; None when the index does not have the term. */
  method Iterator(idx: InvertedIndex, cache: BlockCache?, term: gostring, ghost lists: seq<seq<Posting>>)
    returns (it: Option<PostingIter>)
    requires Represents(idx, lists) && CacheAgrees(cache, lists)
    ensures it.Some? == (term in idx.termIndex)
    ensures it.Some? ==>
              var i := it.value;
              && i.Valid() && fresh(i) && fresh(i.docBuf) && fresh(i.tfBuf) && i.read == 0 && i.shallowIdx == 0
              && i.list == lists[idx.termIndex[term]] && i.skip == idx.skipLists[idx.termIndex[term]] && i.blockCache == cache
  {
    hide EncodeList, Describes, DecodedBlock, ValidList;
    if term !in idx.termIndex {
      return None;
    }
    var ord := idx.termIndex[term];
    assert TermStored(idx, ord, lists[ord]);
    var i := new PostingIter(idx.data[idx.offsets[ord]..idx.offsets[ord + 1]], idx.skipLists[ord], idx.dfs[ord], cache, ord,
                             lists[ord]);
    it := Some(i);
  }

  /** What HasTerm is for: the document's postings hold the term. */
  ghost predicate DocHasTerm(idx: InvertedIndex, lists: seq<seq<Posting>>, term: gostring, docID: gostring)
    requires Represents(idx, lists)
  {
    && docID in idx.docIDIndex && term in idx.termIndex
    && exists j :: 0 <= j < |lists[idx.termIndex[term]]| && lists[idx.termIndex[term]][j].doc == idx.docIDIndex[docID]
  }

  /** The answer the code gives besides: for a term without postings, document 0 is where the iterator starts. */
  ghost predicate StartsThere(idx: InvertedIndex, lists: seq<seq<Posting>>, term: gostring, docID: gostring)
    requires Represents(idx, lists)
  {
    && docID in idx.docIDIndex && term in idx.termIndex
    && lists[idx.termIndex[term]] == [] && idx.docIDIndex[docID] == 0
  }

  /** HasTerm is right exactly when the term has postings or the document is not number 0. */
  method HasTerm(idx: InvertedIndex, term: gostring, docID: gostring, ghost lists: seq<seq<Posting>>) returns (found: bool)
    requires Represents(idx, lists)
    ensures found == (DocHasTerm(idx, lists, term, docID) || StartsThere(idx, lists, term, docID))
    ensures found == DocHasTerm(idx, lists, term, docID) <==> !StartsThere(idx, lists, term, docID)
  {
    hide EncodeList, Describes, DecodedBlock, PostingIter.Loaded, PostingIter.Empty, Offset, Blocks;
    if docID !in idx.docIDIndex {
      return false;
    }
    var numID := idx.docIDIndex[docID];
    var iter := Iterator(idx, null, term, lists);
    if iter.None? {
      return false;
    }
    var it := iter.value;
    found := Lands(it, numID);
  }

  /** Whether SkipTo from the start lands on numID. */
  method Lands(it: PostingIter, numID: nat) returns (found: bool)
    requires it.Valid() && it.read == 0 && it.blockCache == null
    modifies it, it.docBuf, it.tfBuf
    ensures found == ((exists j :: 0 <= j < |it.list| && it.list[j].doc == numID) || (it.list == [] && numID == 0))
  {
    hide EncodeList, Describes, DecodedBlock, PostingIter.Loaded, PostingIter.Empty, Offset, Blocks;
    ghost var k := FirstReaching(it.list, 0, numID);
    var ok := it.SkipTo(numID);
    found := it.currDoc == numID;
    if ok {
      assert it.list[k].doc == it.currDoc;
    }
  }
}
