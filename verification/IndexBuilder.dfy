/** The mutable index builder (internal/index/builder.go): interning documents and terms, accumulating postings. */
module IndexBuilder {
  import opened Collections
  import opened Bits
  import opened RadixSort
  import opened PostingFormat
  import opened Index = InvertedIndex
  import opened BuiltIndex
  import opened BuilderTables
  import opened Compaction
  import opened IndexedDocs
  import opened TermSlices
  import opened TermEncoding
  import opened IndexAssembly

  class IndexBuilder {
    var termToID: map<gostring, nat>
    var termList: seq<gostring>
    var docToID: map<gostring, nat>
    var docList: seq<gostring>
    var docLens: seq<nat>
    var docLive: seq<bool>
    var hasSupersededDocs: bool
    var postings: seq<RawPosting>
    var totalTokens: nat
    var N: nat
    /** Every version added, by slot. */
    ghost var docs: seq<Doc>

    ghost predicate Consistent()
      reads `termToID, `termList, `docToID, `docList, `docLens, `docLive, `hasSupersededDocs, `postings, `docs
    {
      && Slots(docs, docList, docLens, docLive) && hasSupersededDocs == Superseded(docLive) && Newest(docToID, docs)
      && TermTables(termToID, termList) && Small(docs) && Recorded(postings, docs, termList)
    }

    ghost predicate Valid()
      reads this
    {
      Consistent() && N == |docs| && totalTokens == TotalLen(docs)
    }

    constructor ()
      ensures Valid() && docs == [] && termList == []
    {
      termToID, termList, docToID, docList, docLens, docLive := map[], [], map[], [], [], [];
      hasSupersededDocs, postings, totalTokens, N, docs := false, [], 0, 0, [];
    }

    /** A new slot for docID; an earlier one is superseded. */
    method InternDoc(docID: gostring, docLen: nat) returns (did: nat)
      requires Consistent() && |docs| + 1 < 0x1_0000_0000
      modifies this
      ensures Consistent() && docs == old(docs) + [Doc(docID, map[], docLen)] && did == |old(docs)|
      ensures docToID == old(docToID)[docID := did]
      ensures termList == old(termList) && N == old(N) && totalTokens == old(totalTokens)
    {
      hide Recorded, Slots, Superseded, Newest, TermTables, Small;
      ghost var d := Doc(docID, map[], docLen);
      MoreDocs(postings, docs, d, termList);
      NewSlot(docs, docList, docLens, docLive, docToID, d);
      if docID !in docToID {
        did := |docList|;
        docToID := docToID[docID := did];
        docList := docList + [docID];
        docLens := docLens + [docLen];
        docLive := docLive + [true];
      } else {
        docLive := docLive[docToID[docID] := false];
        hasSupersededDocs := true;
        did := |docList|;
        docToID := docToID[docID := did];
        docList := docList + [docID];
        docLens := docLens + [docLen];
        docLive := docLive + [true];
      }
      docs := docs + [d];
    }

    method InternTerm(term: gostring) returns (tid: nat)
      requires Consistent() && (term !in termToID ==> |termList| + 1 < 0x1_0000_0000)
      modifies this`termToID, this`termList
      ensures Consistent() && tid < |termList| && termList[tid] == term
      ensures termList == if term in old(termToID) then old(termList) else old(termList) + [term]
      ensures Terms(termList) == Terms(old(termList)) + {term}
    {
      hide Recorded, Small, Slots, Superseded, Newest;
      if term in termToID {
        tid := termToID[term];
        return;
      }
      MoreTerms(postings, docs, termList, term);
      tid := |termList|;
      termToID := termToID[term := tid];
      termList := termList + [term];
    }

    /** Append one record for a term of a live document that does not have it yet. */
    method Record(tid: nat, did: nat, tf: nat)
      requires Consistent() && tid < |termList| && did < |docs| && tf < 0x1_0000_0000
      requires termList[tid] !in docs[did].tfs
      modifies this`postings, this`docs
      ensures Consistent()
      ensures docs == old(docs)[did := old(docs)[did].(tfs := old(docs)[did].tfs[termList[tid] := tf])]
    {
      hide Recorded, Slots, Newest, TermTables;
      ghost var d := docs[did].(tfs := docs[did].tfs[termList[tid] := tf]);
      DistinctTerms(termToID, termList);
      MoreRecords(postings, docs, termList, tid, did, tf);
      SameSlots(docs, docList, docLens, docLive, docToID, did, d);
      postings := postings + [RawPosting(tid, did, tf)];
      docs := docs[did := d];
    }

    /** Index a document; its earlier versions are superseded. The terms are taken in no particular order. */
    method Add(docID: gostring, tokens: seq<gostring>)
      requires Valid() && |docs| + 1 < 0x1_0000_0000 && |termList| + |tokens| < 0x1_0000_0000
      modifies this
      ensures Valid() && docs == old(docs) + [Doc(docID, Counts(tokens), |tokens|)]
      ensures Terms(termList) == Terms(old(termList)) + Terms(tokens) && |termList| <= |old(termList)| + |tokens|
    {
      hide Consistent, Counts, Terms, TotalLen;
      var tf := Counts(tokens);
      DistinctCount(tokens);
      var did := InternDoc(docID, |tokens|);
      totalTokens := totalTokens + |tokens|;
      N := N + 1;
      AddTerms(did, tf, old(docs), docID, |tokens|);
      SameTerms(tokens, tf);
      TotalSnoc(old(docs), Doc(docID, tf, |tokens|));
    }

    /** The terms of one document, in any order. */
    method AddTerms(did: nat, tf: map<gostring, nat>, ghost base: seq<Doc>, ghost docID: gostring, ghost len: nat)
      requires Consistent() && docs == base + [Doc(docID, map[], len)] && did == |base|
      requires |termList| + |tf.Keys| < 0x1_0000_0000 && forall t :: t in tf ==> tf[t] < 0x1_0000_0000
      modifies this`termToID, this`termList, this`postings, this`docs
      ensures Consistent() && docs == base + [Doc(docID, tf, len)]
      ensures Terms(termList) == Terms(old(termList)) + tf.Keys && |termList| <= |old(termList)| + |tf.Keys|
    {
      hide Consistent, Terms;
      var rest := tf.Keys;
      ghost var done: map<gostring, nat> := map[];
      while rest != {}
        invariant Consistent() && docs == base + [Doc(docID, done, len)]
        invariant rest <= tf.Keys && done.Keys == tf.Keys - rest && forall t :: t in done ==> done[t] == tf[t]
        invariant Terms(termList) == Terms(old(termList)) + done.Keys && |termList| + |rest| <= |old(termList)| + |tf.Keys|
        decreases |rest|
      {
        var term :| term in rest;
        AddTerm(term, did, tf[term], base, docID, len, done);
        done := done[term := tf[term]];
        rest := rest - {term};
      }
      assert done == tf;
    }

    method AddTerm(term: gostring, did: nat, tf: nat, ghost base: seq<Doc>, ghost docID: gostring, ghost len: nat,
                   ghost done: map<gostring, nat>)
      requires Consistent() && docs == base + [Doc(docID, done, len)] && did == |base|
      requires |termList| + 1 < 0x1_0000_0000 && tf < 0x1_0000_0000 && term !in done
      modifies this`termToID, this`termList, this`postings, this`docs
      ensures Consistent() && docs == base + [Doc(docID, done[term := tf], len)]
      ensures Terms(termList) == Terms(old(termList)) + {term} && |termList| <= |old(termList)| + 1
    {
      hide Consistent, Terms;
      var tid := InternTerm(term);
      Record(tid, did, tf);
    }

    /** Register a document of a merge; its postings follow one by one. */
    method PreRegisterDoc(docID: gostring, docLen: nat)
      requires Valid() && |docs| + 1 < 0x1_0000_0000
      modifies this
      ensures Valid() && docs == old(docs) + [Doc(docID, map[], docLen)] && termList == old(termList)
      ensures docToID == old(docToID)[docID := |old(docs)|]
    {
      hide Consistent;
      var _ := InternDoc(docID, docLen);
      N := N + 1;
      totalTokens := totalTokens + docLen;
      TotalSnoc(old(docs), Doc(docID, map[], docLen));
    }

    /** One (term, document, frequency) tuple of a merge; dropped when the document is not registered. */
    method WritePosting(term: gostring, docID: gostring, tf: nat)
      requires Valid() && (term !in termToID ==> |termList| + 1 < 0x1_0000_0000) && tf < 0x1_0000_0000
      requires docID in docToID ==> docToID[docID] < |docs| && term !in docs[docToID[docID]].tfs
      modifies this`termToID, this`termList, this`postings, this`docs
      ensures Valid() && Terms(termList) == Terms(old(termList)) + {term}
      ensures termList == if term in old(termToID) then old(termList) else old(termList) + [term]
      ensures docs == if docID in docToID
                      then var d := docToID[docID]; old(docs)[d := old(docs)[d].(tfs := old(docs)[d].tfs[term := tf])]
                      else old(docs)
    {
      hide Consistent;
      var tid := InternTerm(term);
      if docID !in docToID {
        return;
      }
      Record(tid, docToID[docID], tf);
      TotalSame(old(docs), docs);
    }

    /** The terms an index of this builder lists: none when no document was added. */
    ghost function Vocabulary(): set<gostring>
      reads this
    {
      if docs == [] then {} else Terms(termList)
    }

    /** The slot of a registered document, and how many terms there are. */
    lemma SlotOf(docID: gostring)
      requires Valid()
      ensures docID in docToID ==> docToID[docID] < |docs| && docs[docToID[docID]].docID == docID
      ensures docID in docToID <==> exists i :: 0 <= i < |docs| && docs[i].docID == docID
    {
      hide Recorded, Slots, Small, TermTables, IsLast;
    }

    lemma TermKnown(term: gostring)
      requires Valid()
      ensures term in termToID <==> term in termList
    {
      hide Recorded, Slots, Small, Newest, IsLast;
    }

    /** Every term of a last version, and so of an indexed document, is among the index's terms. */
    lemma VocabularyCovers()
      requires Valid()
      ensures forall d, t :: 0 <= d < |LastVersions(docs)| && t in LastVersions(docs)[d].tfs ==> t in Vocabulary()
      ensures forall d, t :: 0 <= d < |Indexed(docs)| && t in Indexed(docs)[d].tfs ==> t in Vocabulary()
    {
      hide IsLast, Selected, Slots, Newest, Small, TermTables;
      forall d, t | 0 <= d < |LastVersions(docs)| && t in LastVersions(docs)[d].tfs ensures t in Vocabulary() {
        var i := SelectedFrom(docs, |docs|, d);
        assert HasRecord(postings, docs, termList, i, t);
      }
      if DistinctIDs(docs) { DistinctAreLast(docs); }
    }

    /** The tables and records of what is indexed; the builder's own stay as they are. */
    method CompactTables() returns (liveDocList: seq<gostring>, liveDocLens: seq<nat>, kept: seq<RawPosting>, total: nat)
      requires Valid()
      ensures TableOf(Indexed(docs), liveDocList, liveDocLens)
      ensures Recorded(kept, Indexed(docs), termList) && total == TotalLen(Indexed(docs))
    {
      hide Recorded, IsLast, Selected, Newest, TermTables, Small, TotalLen;
      liveDocList, liveDocLens, kept, total := docList, docLens, postings, totalTokens;
      SupersededIs(docs, docList, docLens, docLive);
      if hasSupersededDocs {
        var finalID;
        finalID, liveDocList, liveDocLens := Renumber(docList, docLens, docLive, docs);
        kept := Filter(postings, finalID, docs, termList);
        total := SumLens(liveDocLens, liveDocList, LastVersions(docs));
        TotalSame(LastVersions(docs), Indexed(docs));
      }
    }

    /**
     The index of each document's last version, save for the postings of
     documents whose new number an int32 does not hold. Nothing of the builder
     changes, so a build can be repeated.
     */
    method Build(k: BuildScoring) returns (idx: InvertedIndex)
      requires Valid()
      ensures Small(Indexed(docs)) && IsIndexOf(idx, Indexed(docs), Vocabulary(), k)
    {
      hide Recorded, IsLast, Selected, Newest, Small, TotalLen, Slots, Indexed;
      SmallLast(docs);
      SmallIndexed(docs);
      if N == 0 {
        idx := InvertedIndex(map[], [], [], [], [], [], [], [], map[], map[], 0.0, 0);
        EmptyIndex(idx, docs, k);
        return;
      }
      SomeLast(docs);
      var liveDocList, liveDocLens, kept, total := CompactTables();
      var docCount := |liveDocList|;
      var avgDocLen := (total as real) / (docCount as real);
      DistinctTerms(termToID, termList);
      idx := MakeIndex(Corpus(k, liveDocLens, avgDocLen, docCount), liveDocList, kept, termList, Indexed(docs));
    }
  }

  /** From compacted tables to the index. */
  method MakeIndex(c: Corpus, docList: seq<gostring>, postings: seq<RawPosting>, termList: seq<gostring>, ghost docs: seq<Doc>)
    returns (idx: InvertedIndex)
    requires TableOf(docs, docList, c.docLens) && CorpusOf(c, docs) && Small(docs) && docs != [] && DistinctIDs(docs)
    requires Recorded(postings, docs, termList) && Distinct(termList)
    ensures IsIndexOf(idx, docs, Terms(termList), c.k)
  {
    hide Recorded, KeysBelow, Buckets, EncodedUpTo, SortedTerms, ListUpTo, AvgLen, CorpusOf, ListsOk, Terms;
    DistinctTable(docs, docList, c.docLens);
    RecordKeys(postings, docs, termList);
    var docIDIndex := Positions(docList);
    var terms := SortTerms(termList);
    TermsDistinct(terms, termList);
    var termIndex := Positions(terms);
    var termIngestID := Positions(termList);
    var termStart := TermStarts(postings, |termList|);
    var sorted := SortRecords(postings);
    var e := EncodeAll(terms, termIngestID, sorted, termStart, c, postings, termList, docs);
    var lengths := Lengths(docList, c.docLens);
    idx := InvertedIndex(termIndex, terms, e.data, e.offsets + [|e.data|], e.dfs, e.skipLists, e.ubs, docList, docIDIndex,
                         lengths, c.avgDocLen, c.docCount);
    MakesTables(idx, e, c, docs, termList);
    AssembledIsIndex(idx, e, c, docs, termList);
  }

  lemma MakesTables(idx: InvertedIndex, e: Encoded, c: Corpus, docs: seq<Doc>, termList: seq<gostring>)
    requires Small(docs) && CorpusOf(c, docs) && TableOf(docs, idx.docIDs, c.docLens) && idx.N == c.docCount
    requires ListsOk(Lists(docs, idx.terms), docs) && EncodedUpTo(e, Lists(docs, idx.terms), c.k, docs, |idx.terms|)
    requires idx.dfs == e.dfs && idx.skipLists == e.skipLists && idx.ub == e.ubs
    requires forall t :: t in idx.termIndex ==> idx.termIndex[t] < |idx.terms| && idx.terms[idx.termIndex[t]] == t
    requires forall o :: 0 <= o < |idx.terms| ==> idx.terms[o] in idx.termIndex && idx.termIndex[idx.terms[o]] == o
    requires forall s :: s in idx.docIDIndex ==> idx.docIDIndex[s] < |idx.docIDs| && idx.docIDs[idx.docIDIndex[s]] == s
    requires forall d :: 0 <= d < |idx.docIDs| ==> idx.docIDs[d] in idx.docIDIndex && idx.docIDIndex[idx.docIDs[d]] == d
    ensures Tables(idx) && forall s :: s in idx.docIDIndex <==> s in idx.docIDs
  {
    hide Lists, ListsOk, AvgLen, TermBounds, ListUpTo;
  }

  lemma TermsDistinct(terms: seq<gostring>, termList: seq<gostring>)
    requires SortedTerms(terms, Terms(termList))
    ensures Distinct(terms) && forall i :: 0 <= i < |terms| ==> terms[i] in termList
  {
    forall i | 0 <= i < |terms| ensures terms[i] in termList {
      assert terms[i] in terms;
    }
  }

  lemma AssembledIsIndex(idx: InvertedIndex, e: Encoded, c: Corpus, docs: seq<Doc>, termList: seq<gostring>)
    requires Small(docs) && docs != [] && DistinctIDs(docs) && CorpusOf(c, docs) && SortedTerms(idx.terms, Terms(termList))
    requires ListsOk(Lists(docs, idx.terms), docs) && EncodedUpTo(e, Lists(docs, idx.terms), c.k, docs, |idx.terms|)
    requires idx.data == e.data && idx.offsets == e.offsets + [|e.data|] && idx.dfs == e.dfs && idx.skipLists == e.skipLists
    requires idx.ub == e.ubs && idx.avgDocLen == c.avgDocLen && idx.N == c.docCount && TableOf(docs, idx.docIDs, c.docLens)
    requires Tables(idx) && (forall s :: s in idx.docIDIndex <==> s in idx.docIDs)
    requires forall s :: s in idx.docLengths <==> s in idx.docIDs
    requires forall d :: 0 <= d < |idx.docIDs| ==> idx.docIDs[d] in idx.docLengths && idx.docLengths[idx.docIDs[d]] == c.docLens[d]
    ensures IsIndexOf(idx, docs, Terms(termList), c.k)
  {
    hide Tables, SortedTerms, ListUpTo, AvgLen, TermBounds, ValidList, InDocs, EncodeList, DistinctIDs;
  }

  lemma EmptyIndex(idx: InvertedIndex, docs: seq<Doc>, k: BuildScoring)
    requires docs == [] && idx == InvertedIndex(map[], [], [], [], [], [], [], [], map[], map[], 0.0, 0)
    ensures Small(Indexed(docs)) && IsIndexOf(idx, Indexed(docs), {}, k)
  {
  }

  lemma SomeLast(docs: seq<Doc>)
    requires docs != []
    ensures Indexed(docs) != [] && DistinctIDs(Indexed(docs))
  {
    SelectedAt(docs, |docs| - 1);
    IndexedTable(docs);
  }

  /** A slot was superseded exactly when two versions share an ID. */
  lemma SupersededIs(docs: seq<Doc>, docList: seq<gostring>, docLens: seq<nat>, docLive: seq<bool>)
    requires Slots(docs, docList, docLens, docLive)
    ensures Superseded(docLive) <==> !DistinctIDs(docs)
  {
    if Superseded(docLive) {
      var i :| 0 <= i < |docLive| && !docLive[i];
      assert !IsLast(docs, i);
    } else {
      forall i, j | 0 <= i < j < |docs| ensures docs[i].docID != docs[j].docID {
        assert docLive[i] && IsLast(docs, i);
      }
    }
  }
}
