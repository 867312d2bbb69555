/** The last steps of a build (internal/index/builder.go): all terms encoded in order, and the tables around them. */
module IndexAssembly {
  import opened Collections
  import opened Options
  import opened Bits
  import opened RadixSort
  import opened BlockPack
  import opened PostingFormat
  import opened Skips = SkipList
  import opened Index = InvertedIndex
  import opened BuiltIndex
  import opened BuilderTables
  import opened Compaction
  import opened TermSlices
  import opened TermEncoding

  /** What encoding the first n lists leaves. */
  datatype Encoded = Encoded(data: seq<byte>, offsets: seq<nat>, dfs: seq<nat>, skipLists: seq<Option<SkipList>>, ubs: seq<real>)

  ghost predicate ListsOk(lists: seq<seq<Posting>>, docs: seq<Doc>) {
    forall o :: 0 <= o < |lists| ==> ValidList(lists[o]) && InDocs(lists[o], docs)
  }

  lemma ListsAreOk(docs: seq<Doc>, terms: seq<gostring>)
    requires Small(docs)
    ensures ListsOk(Lists(docs, terms), docs)
  {
    hide ListUpTo;
    forall o | 0 <= o < |terms| ensures ValidList(TermList(docs, terms[o])) && InDocs(TermList(docs, terms[o]), docs) {
      TermListValid(docs, terms[o]);
    }
  }

  ghost predicate EncodedUpTo(e: Encoded, lists: seq<seq<Posting>>, k: BuildScoring, docs: seq<Doc>, n: nat)
    requires ListsOk(lists, docs)
  {
    && n <= |lists| && e.data == Joined(lists, n)
    && |e.offsets| == |e.dfs| == |e.skipLists| == |e.ubs| == n
    && (forall o :: 0 <= o < n ==> e.offsets[o] == |Joined(lists, o)|)
    && (forall o :: 0 <= o < n ==> e.dfs[o] == |lists[o]| && TermBounds(e.ubs[o], e.skipLists[o], k, docs, lists[o]))
  }

  lemma OneMoreTerm(e: Encoded, lists: seq<seq<Posting>>, k: BuildScoring, docs: seq<Doc>, n: nat,
                    data: seq<byte>, df: nat, skip: Option<SkipList>, ub: real)
    requires ListsOk(lists, docs) && n < |lists| && EncodedUpTo(e, lists, k, docs, n)
    requires data == e.data + EncodeList(lists[n]) && df == |lists[n]| && TermBounds(ub, skip, k, docs, lists[n])
    ensures EncodedUpTo(Encoded(data, e.offsets + [|e.data|], e.dfs + [df], e.skipLists + [skip], e.ubs + [ub]), lists, k, docs, n + 1)
  {
    hide TermBounds, EncodeList, ValidList, InDocs;
  }

  /** Every term's slice, encoded in the order of the sorted terms. */
  method EncodeAll(terms: seq<gostring>, termIngestID: map<gostring, nat>, sorted: seq<RawPosting>, termStart: seq<nat>, c: Corpus,
                   ghost postings: seq<RawPosting>, ghost termList: seq<gostring>, ghost docs: seq<Doc>)
    returns (e: Encoded)
    requires Small(docs) && CorpusOf(c, docs) && Recorded(postings, docs, termList) && Distinct(termList)
    requires Ordered(sorted, PostingLe) && multiset(sorted) == multiset(postings)
    requires KeysBelow(postings, TermOf(), |termList|) && |termStart| == |termList| + 1
    requires forall t {:trigger termStart[t]} :: 0 <= t < |termStart| ==> termStart[t] == |Buckets(postings, TermOf(), t)|
    requires forall i :: 0 <= i < |terms| ==> terms[i] in termIngestID && termIngestID[terms[i]] < |termList|
                                              && termList[termIngestID[terms[i]]] == terms[i]
    ensures ListsOk(Lists(docs, terms), docs) && EncodedUpTo(e, Lists(docs, terms), c.k, docs, |terms|)
  {
    ghost var lists := Lists(docs, terms);
    hide AvgLen, SliceHolds, Small, CorpusOf, Recorded, Ordered, Buckets, TermBounds, ListUpTo, EncodeList, ValidList, InDocs, KeysBelow;
    ListsAreOk(docs, terms);
    var packBuf := new byte[PACK_BUF_SIZE](_ => 0);
    e := Encoded([], [], [], [], []);
    for termOrd := 0 to |terms|
      invariant EncodedUpTo(e, lists, c.k, docs, termOrd)
    {
      var ingestID := termIngestID[terms[termOrd]];
      CutSlice(postings, sorted, termList, docs, ingestID);
      var slice := sorted[termStart[ingestID]..termStart[ingestID + 1]];
      var data, df, skip, maxUB := EncodeTerm(slice, c, e.data, packBuf, lists[termOrd], docs);
      OneMoreTerm(e, lists, c.k, docs, termOrd, data, df, skip, maxUB);
      e := Encoded(data, e.offsets + [|e.data|], e.dfs + [df], e.skipLists + [skip], e.ubs + [maxUB]);
    }
  }

  /** The slice between a term's start positions holds its list. */
  lemma CutSlice(postings: seq<RawPosting>, sorted: seq<RawPosting>, termList: seq<gostring>, docs: seq<Doc>, t: nat)
    requires Recorded(postings, docs, termList) && Distinct(termList) && t < |termList|
    requires Ordered(sorted, PostingLe) && multiset(sorted) == multiset(postings)
    requires KeysBelow(postings, TermOf(), |termList|)
    ensures |Buckets(postings, TermOf(), t)| <= |Buckets(postings, TermOf(), t + 1)| <= |sorted|
    ensures SliceHolds(sorted[|Buckets(postings, TermOf(), t)|..|Buckets(postings, TermOf(), t + 1)|], TermList(docs, termList[t]))
  {
    hide Recorded, Ordered, Buckets, Bucket, SliceHolds, ListUpTo;
    TermSlice(postings, sorted, |termList|, t);
    var slice := sorted[|Buckets(postings, TermOf(), t)|..|Buckets(postings, TermOf(), t + 1)|];
    SliceIsList(postings, slice, docs, termList, t);
  }

  lemma RecordKeys(postings: seq<RawPosting>, docs: seq<Doc>, termList: seq<gostring>)
    requires Recorded(postings, docs, termList)
    ensures KeysBelow(postings, TermOf(), |termList|)
  {
    forall i | 0 <= i < |postings| ensures TermOf()(postings[i]) < |termList| {
      assert Sound(postings[i], docs, termList);
    }
  }

  /** The postings sorted by term and document. */
  method SortRecords(postings: seq<RawPosting>) returns (sorted: seq<RawPosting>)
    ensures Ordered(sorted, PostingLe) && multiset(sorted) == multiset(postings)
  {
    var a := new RawPosting[|postings|](_ => RawPosting(0, 0, 0));
    Store(a, postings);
    RadixSortPostings(a);
    sorted := a[..];
  }

  method SumLens(docLens: seq<nat>, ghost docList: seq<gostring>, ghost docs: seq<Doc>) returns (total: nat)
    requires TableOf(docs, docList, docLens)
    ensures total == TotalLen(docs)
  {
    total := 0;
    for i := 0 to |docLens|
      invariant total == TotalLen(docs[..i])
    {
      assert docs[..i + 1][..i] == docs[..i];
      total := total + docLens[i];
    }
    assert docs[..|docs|] == docs;
  }

  method Lengths(docList: seq<gostring>, docLens: seq<nat>) returns (lengths: map<gostring, nat>)
    requires |docList| == |docLens| && Distinct(docList)
    ensures forall s :: s in lengths <==> s in docList
    ensures forall i :: 0 <= i < |docList| ==> docList[i] in lengths && lengths[docList[i]] == docLens[i]
  {
    lengths := map[];
    for i := 0 to |docList|
      invariant forall s :: s in lengths <==> s in docList[..i]
      invariant forall j :: 0 <= j < i ==> docList[j] in lengths && lengths[docList[j]] == docLens[j]
    {
      assert docList[..i + 1] == docList[..i] + [docList[i]];
      lengths := lengths[docList[i] := docLens[i]];
    }
    assert docList[..|docList|] == docList;
  }

  lemma DistinctTable(docs: seq<Doc>, docList: seq<gostring>, docLens: seq<nat>)
    requires TableOf(docs, docList, docLens)
    ensures DistinctIDs(docs) <==> Distinct(docList)
  {
    if Distinct(docList) {
      forall i, j | 0 <= i < j < |docs| ensures docs[i].docID != docs[j].docID {
        assert docList[i] != docList[j];
      }
    }
  }

  lemma SmallLast(docs: seq<Doc>)
    requires Small(docs)
    ensures Small(LastVersions(docs))
  {
    hide IsLast, Selected;
    var s := LastVersions(docs);
    forall k, t | 0 <= k < |s| && t in s[k].tfs ensures s[k].tfs[t] < 0x1_0000_0000 {
      var i := SelectedFrom(docs, |docs|, k);
    }
  }
}
