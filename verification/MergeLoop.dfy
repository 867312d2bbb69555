/** The term-major loop of a merge and its result (internal/segment/merge.go). */
module MergeLoop {
  import opened Options
  import opened Bits
  import opened RadixSort
  import opened BlockPack
  import opened PostingFormat
  import opened Index = InvertedIndex
  import opened BuiltIndex
  import opened BuilderTables
  import opened Builder = IndexBuilder
  import opened MergeHeap
  import opened SegmentContents
  import opened SegmentMerge

  type Done = set<(gostring, gostring)>

  // ----- one term of one segment

  /** Which postings are written once term has been emitted for segment s. */
  ghost predicate Emitted(done: Done, done': Done, truth: map<gostring, Doc>, docMap: map<gostring, DocMeta>, term: gostring, s: nat) {
    forall t, id :: (t, id) in done' <==>
      (t, id) in done || (t == term && id in docMap && id in truth && docMap[id].segIdx == s && term in truth[id].tfs)
  }

  /** The same with only the first n postings of the list emitted. */
  ghost predicate EmittedUpTo(done: Done, done': Done, docMap: map<gostring, DocMeta>, docs: seq<Doc>, ps: seq<Posting>, term: gostring, s: nat, n: nat)
    requires n <= |ps| && InDocs(ps, docs)
  {
    forall t, id :: (t, id) in done' <==>
      (t, id) in done || (t == term && id in docMap && docMap[id].segIdx == s && exists i :: 0 <= i < n && docs[ps[i].doc].docID == id)
  }

  /** What the truth says of a document this segment owns. */
  lemma OwnedDoc(docs: seq<Doc>, d: Doc, i: nat)
    requires DistinctIDs(docs) && d in docs && i < |docs| && docs[i].docID == d.docID
    ensures docs[i] == d
  {
    var j :| 0 <= j < |docs| && docs[j] == d;
  }

  method EmitPostings(b: IndexBuilder, seg: Segment, s: nat, term: gostring, docMap: map<gostring, DocMeta>,
                      docScratch: array<nat>, tfScratch: array<nat>,
                      ghost docs: seq<Doc>, ghost contents: seq<seq<Doc>>, ghost truth: map<gostring, Doc>, ghost done: Done)
    returns (ghost done': Done)
    requires s < |contents| && docs == contents[s] && SegmentHolds(seg, docs) && term in seg.terms
    requires docScratch != tfScratch && docScratch.Length == tfScratch.Length == BLOCK_SIZE
    requires TruthOf(truth, docMap, contents) && b.Valid() && Written(b.docs, truth, done)
    requires forall id :: (term, id) in done ==> id in docMap && docMap[id].segIdx != s
    requires |b.termList| + 1 < 0x1_0000_0000
    modifies b, docScratch, tfScratch
    ensures b.Valid() && Written(b.docs, truth, done') && Emitted(done, done', truth, docMap, term, s)
    ensures |b.termList| <= |old(b.termList)| + 1
  {
    hide IndexBuilder.Valid, Written, TermsHeld, ListHeld;
    ListOf(seg, docs, term);
    var ord := seg.ordinals[term];
    ghost var ps := TermList(docs, term);
    var numericIDs, tfs := DecodePostings(seg.posts[ord], seg.dfs[ord], docScratch, tfScratch, ps);
    done' := EmitAll(b, seg, s, term, docMap, numericIDs, tfs, docs, ps, contents, truth, done);
    AllEmitted(done, done', truth, docMap, docs, contents, term, s);
  }

  lemma ListOf(seg: Segment, docs: seq<Doc>, term: gostring)
    requires SegmentHolds(seg, docs) && term in seg.terms
    ensures term in seg.ordinals && seg.ordinals[term] < |seg.posts| == |seg.dfs|
    ensures var ps := TermList(docs, term);
            ValidList(ps) && InDocs(ps, docs)
            && seg.posts[seg.ordinals[term]] == EncodeList(ps) && seg.dfs[seg.ordinals[term]] == |ps|
  {
    hide Small, EncodeList, ValidList, TermsIn;
    var o :| 0 <= o < |seg.terms| && seg.terms[o] == term;
    assert ListHeld(seg, docs, o);
  }

  method EmitAll(b: IndexBuilder, seg: Segment, s: nat, term: gostring, docMap: map<gostring, DocMeta>,
                 numericIDs: seq<nat>, tfs: seq<nat>,
                 ghost docs: seq<Doc>, ghost ps: seq<Posting>, ghost contents: seq<seq<Doc>>, ghost truth: map<gostring, Doc>, ghost done: Done)
    returns (ghost done': Done)
    requires s < |contents| && docs == contents[s] && SegmentHolds(seg, docs)
    requires ps == TermList(docs, term) && ValidList(ps) && InDocs(ps, docs) && |numericIDs| == |ps| && Decoded(numericIDs, tfs, ps)
    requires TruthOf(truth, docMap, contents) && b.Valid() && Written(b.docs, truth, done)
    requires forall id :: (term, id) in done ==> id in docMap && docMap[id].segIdx != s
    requires |b.termList| + 1 < 0x1_0000_0000
    modifies b
    ensures b.Valid() && Written(b.docs, truth, done') && EmittedUpTo(done, done', docMap, docs, ps, term, s, |ps|)
    ensures |b.termList| <= |old(b.termList)| + 1
  {
    hide IndexBuilder.Valid, Written, TermsHeld, EmittedUpTo, ListUpTo, ValidList;
    done' := done;
    NothingEmitted(done, docMap, docs, ps, term, s);
    for j := 0 to |numericIDs|
      invariant b.Valid() && Written(b.docs, truth, done') && EmittedUpTo(done, done', docMap, docs, ps, term, s, j)
      invariant b.termList == old(b.termList) || (b.termList == old(b.termList) + [term])
    {
      var numID := numericIDs[j];
      NextPosting(done, done', truth, docMap, docs, contents, ps, term, s, j);
      if numID >= |seg.docIDs| {
        assert false;
      }
      var strID := seg.docIDs[numID];
      if strID !in docMap || docMap[strID].segIdx != s {
        continue;
      }
      WriteOne(b, term, strID, tfs[j], truth, done');
      done' := done' + {(term, strID)};
    }
  }

  lemma NothingEmitted(done: Done, docMap: map<gostring, DocMeta>, docs: seq<Doc>, ps: seq<Posting>, term: gostring, s: nat)
    requires InDocs(ps, docs)
    ensures EmittedUpTo(done, done, docMap, docs, ps, term, s, 0)
  {
  }

  /** Posting j: whose it is, what is written for it, and that it was not written before. */
  lemma NextPosting(done: Done, done': Done, truth: map<gostring, Doc>, docMap: map<gostring, DocMeta>, docs: seq<Doc>,
                    contents: seq<seq<Doc>>, ps: seq<Posting>, term: gostring, s: nat, j: nat)
    requires s < |contents| && docs == contents[s] && DistinctIDs(docs) && Small(docs)
    requires ps == TermList(docs, term) && InDocs(ps, docs) && j < |ps| && TruthOf(truth, docMap, contents)
    requires EmittedUpTo(done, done', docMap, docs, ps, term, s, j)
    requires forall id :: (term, id) in done ==> id in docMap && docMap[id].segIdx != s
    ensures ps[j].doc < |docs| && term in docs[ps[j].doc].tfs && ps[j].tf == docs[ps[j].doc].tfs[term] < 0x1_0000_0000
    ensures var id := docs[ps[j].doc].docID;
            if id in docMap && docMap[id].segIdx == s then
              id in truth && truth[id] == docs[ps[j].doc] && (term, id) !in done'
              && EmittedUpTo(done, done' + {(term, id)}, docMap, docs, ps, term, s, j + 1)
            else EmittedUpTo(done, done', docMap, docs, ps, term, s, j + 1)
  {
    var id := docs[ps[j].doc].docID;
    if id in docMap && docMap[id].segIdx == s {
      OwnedDoc(docs, truth[id], ps[j].doc);
      forall i | 0 <= i < j ensures docs[ps[i].doc].docID != id {
        assert ps[i].doc < ps[j].doc;
      }
    }
  }

  lemma AllEmitted(done: Done, done': Done, truth: map<gostring, Doc>, docMap: map<gostring, DocMeta>, docs: seq<Doc>,
                   contents: seq<seq<Doc>>, term: gostring, s: nat)
    requires s < |contents| && docs == contents[s] && DistinctIDs(docs) && TruthOf(truth, docMap, contents)
    requires InDocs(TermList(docs, term), docs)
    requires EmittedUpTo(done, done', docMap, docs, TermList(docs, term), term, s, |TermList(docs, term)|)
    ensures Emitted(done, done', truth, docMap, term, s)
  {
    var ps := TermList(docs, term);
    forall id | id in docMap && docMap[id].segIdx == s
      ensures term in truth[id].tfs <==> exists i :: 0 <= i < |ps| && docs[ps[i].doc].docID == id
    {
      if term in truth[id].tfs {
        var d :| 0 <= d < |docs| && docs[d] == truth[id];
        assert Posting(d, docs[d].tfs[term]) in ps;
        var i :| 0 <= i < |ps| && ps[i] == Posting(d, docs[d].tfs[term]);
      }
      if i :| 0 <= i < |ps| && docs[ps[i].doc].docID == id {
        OwnedDoc(docs, truth[id], ps[i].doc);
      }
    }
  }

  // ----- the k-way loop

  /** Iterator i has consumed the first pos[i] terms of segment i. */
  ghost predicate PosOk(segments: seq<Segment>, pos: seq<nat>) {
    |pos| == |segments| && forall i :: 0 <= i < |pos| ==> pos[i] <= |segments[i].terms|
  }

  /** x is where one of the first n iterators stands. */
  predicate IsCurrent(segments: seq<Segment>, pos: seq<nat>, x: Item, n: nat)
    requires |pos| == |segments| && n <= |segments|
  {
    x.iterIdx < n && pos[x.iterIdx] < |segments[x.iterIdx].terms| && segments[x.iterIdx].terms[pos[x.iterIdx]] == x.term
  }

  /** The heap holds the current term of each of the first n iterators once, and nothing else. */
  ghost predicate HeapIs(h: seq<Item>, segments: seq<Segment>, pos: seq<nat>, n: nat)
    requires |pos| == |segments| && n <= |segments|
  {
    RootLeast(h) && forall x: Item {:trigger multiset(h)[x]} :: multiset(h)[x] == if IsCurrent(segments, pos, x, n) then 1 else 0
  }

  /** Written are the postings of owned documents for the terms consumed. */
  ghost predicate DoneIs(done: Done, truth: map<gostring, Doc>, docMap: map<gostring, DocMeta>, segments: seq<Segment>, pos: seq<nat>)
    requires PosOk(segments, pos)
  {
    forall t, id :: (t, id) in done <==>
      id in docMap && id in truth && t in truth[id].tfs
      && docMap[id].segIdx < |segments| && t in segments[docMap[id].segIdx].terms[..pos[docMap[id].segIdx]]
  }

  /** Terms still to be consumed by the first n iterators. */
  ghost function Left(segments: seq<Segment>, pos: seq<nat>, n: nat): nat
    requires PosOk(segments, pos) && n <= |segments|
  {
    if n == 0 then 0 else Left(segments, pos, n - 1) + (|segments[n - 1].terms| - pos[n - 1])
  }

  lemma {:induction false} LeftStep(segments: seq<Segment>, pos: seq<nat>, i: nat, n: nat)
    requires PosOk(segments, pos) && n <= |segments| && i < |segments| && pos[i] < |segments[i].terms|
    ensures Left(segments, pos[i := pos[i] + 1], n) == Left(segments, pos, n) - if i < n then 1 else 0
  {
    if n > 0 { LeftStep(segments, pos, i, n - 1); }
  }

  /** Some segment lists the term. */
  ghost predicate Listed(segments: seq<Segment>, t: gostring) {
    exists s :: 0 <= s < |segments| && t in segments[s].terms
  }

  /** Every consumed term is listed, in strictly ascending order. */
  ghost predicate Trace(consumed: seq<gostring>, segments: seq<Segment>, pos: seq<nat>)
    requires PosOk(segments, pos)
  {
    && SortedStrictly(consumed)
    && (forall t :: t in consumed ==> Listed(segments, t))
    && forall i, o :: 0 <= i < |segments| && 0 <= o < pos[i] ==> segments[i].terms[o] in consumed
  }

  /** No current term is below the last consumed one; strict: none equals it either. */
  ghost predicate Beyond(consumed: seq<gostring>, h: seq<Item>, strict: bool) {
    consumed != [] ==>
      forall i :: 0 <= i < |h| ==> LexLe(consumed[|consumed| - 1], h[i].term) && (strict ==> consumed[|consumed| - 1] != h[i].term)
  }

  lemma InHeap(h: seq<Item>, segments: seq<Segment>, pos: seq<nat>, n: nat, i: nat)
    requires |pos| == |segments| && n <= |segments| && HeapIs(h, segments, pos, n) && i < |h|
    ensures IsCurrent(segments, pos, h[i], n)
  {
    assert h[i] in multiset(h);
  }

  method StartHeap(segments: seq<Segment>) returns (h: seq<Item>, pos: seq<nat>)
    ensures pos == seq(|segments|, _ => 0) && HeapIs(h, segments, pos, |segments|)
  {
    pos := seq(|segments|, _ => 0);
    h := [];
    for i := 0 to |segments|
      invariant HeapIs(h, segments, pos, i)
    {
      if pos[i] < |segments[i].terms| {
        h := Push(h, Item(segments[i].terms[pos[i]], i));
      }
    }
  }

  /** Popping the root and pushing its iterator's next term. */
  method Replace(h: seq<Item>, segments: seq<Segment>, pos: seq<nat>) returns (x: Item, h': seq<Item>, pos': seq<nat>)
    requires PosOk(segments, pos) && HeapIs(h, segments, pos, |segments|) && h != []
    ensures x == h[0] && IsCurrent(segments, pos, x, |segments|)
    ensures pos' == pos[x.iterIdx := pos[x.iterIdx] + 1] && PosOk(segments, pos') && HeapIs(h', segments, pos', |segments|)
  {
    InHeap(h, segments, pos, |segments|, 0);
    var rest;
    x, rest := Pop(h);
    pos' := pos[x.iterIdx := pos[x.iterIdx] + 1];
    h' := rest;
    ghost var i := x.iterIdx;
    if pos'[x.iterIdx] < |segments[x.iterIdx].terms| {
      h' := Push(rest, Item(segments[x.iterIdx].terms[pos'[x.iterIdx]], x.iterIdx));
    }
    forall y: Item ensures multiset(h')[y] == if IsCurrent(segments, pos', y, |segments|) then 1 else 0 {
      assert multiset(h)[y] == if IsCurrent(segments, pos, y, |segments|) then 1 else 0;
      assert y.iterIdx == i && pos'[i] < |segments[i].terms| ==> multiset(h')[y] == multiset(rest)[y] + if y.term == segments[i].terms[pos'[i]] then 1 else 0;
    }
  }

  // ----- one step

  lemma DoneStep(done: Done, done': Done, truth: map<gostring, Doc>, docMap: map<gostring, DocMeta>, segments: seq<Segment>,
                 pos: seq<nat>, pos': seq<nat>, x: Item)
    requires PosOk(segments, pos) && DoneIs(done, truth, docMap, segments, pos) && IsCurrent(segments, pos, x, |segments|)
    requires pos' == pos[x.iterIdx := pos[x.iterIdx] + 1] && PosOk(segments, pos')
    requires Emitted(done, done', truth, docMap, x.term, x.iterIdx)
    ensures DoneIs(done', truth, docMap, segments, pos')
  {
    var i, p := x.iterIdx, pos[x.iterIdx];
    assert segments[i].terms[..pos'[i]] == segments[i].terms[..p] + [x.term];
  }

  /** A segment's current term was not emitted for it before. */
  lemma NotYetEmitted(done: Done, truth: map<gostring, Doc>, docMap: map<gostring, DocMeta>, segments: seq<Segment>, pos: seq<nat>, x: Item)
    requires PosOk(segments, pos) && DoneIs(done, truth, docMap, segments, pos) && IsCurrent(segments, pos, x, |segments|)
    requires SortedStrictly(segments[x.iterIdx].terms)
    ensures forall id :: (x.term, id) in done ==> id in docMap && docMap[id].segIdx != x.iterIdx
  {
    var terms, p := segments[x.iterIdx].terms, pos[x.iterIdx];
    forall k | 0 <= k < p ensures terms[..p][k] != x.term {
      assert terms[k] != terms[p];
    }
  }

  lemma BeyondStep(consumed: seq<gostring>, h: seq<Item>, h': seq<Item>, segments: seq<Segment>, pos: seq<nat>, pos': seq<nat>, x: Item)
    requires PosOk(segments, pos) && PosOk(segments, pos') && HeapIs(h, segments, pos, |segments|) && HeapIs(h', segments, pos', |segments|)
    requires IsCurrent(segments, pos, x, |segments|) && pos' == pos[x.iterIdx := pos[x.iterIdx] + 1]
    requires SortedStrictly(segments[x.iterIdx].terms) && consumed != [] && consumed[|consumed| - 1] == x.term
    requires Beyond(consumed, h, false)
    ensures Beyond(consumed, h', false)
  {
    forall k | 0 <= k < |h'| ensures LexLe(x.term, h'[k].term) {
      var y := h'[k];
      InHeap(h', segments, pos', |segments|, k);
      if y.iterIdx == x.iterIdx {
        assert LexLe(segments[x.iterIdx].terms[pos[x.iterIdx]], segments[x.iterIdx].terms[pos'[x.iterIdx]]);
      } else {
        assert IsCurrent(segments, pos, y, |segments|) && multiset(h)[y] == 1;
        assert y in h;
      }
    }
  }

  lemma TraceStep(consumed: seq<gostring>, segments: seq<Segment>, pos: seq<nat>, pos': seq<nat>, x: Item)
    requires PosOk(segments, pos) && Trace(consumed, segments, pos) && IsCurrent(segments, pos, x, |segments|)
    requires pos' == pos[x.iterIdx := pos[x.iterIdx] + 1] && PosOk(segments, pos') && x.term in consumed
    ensures Trace(consumed, segments, pos')
  {
  }

  /** A new least term goes behind the trace. */
  lemma TraceNext(consumed: seq<gostring>, segments: seq<Segment>, pos: seq<nat>, h: seq<Item>)
    requires PosOk(segments, pos) && Trace(consumed, segments, pos) && h != [] && RootLeast(h) && Beyond(consumed, h, true)
    requires Listed(segments, h[0].term)
    ensures Trace(consumed + [h[0].term], segments, pos) && Beyond(consumed + [h[0].term], h, false)
  {
    hide LexLe;
    var x := h[0].term;
    var consumed' := consumed + [x];
    forall i, j | 0 <= i < j < |consumed'| ensures LexLe(consumed'[i], consumed'[j]) && consumed'[i] != consumed'[j] {
      if j == |consumed| { BelowNext(consumed, x, i); }
    }
    forall i | 0 <= i < |h| ensures LexLe(x, h[i].term) {
      assert ItemLe(h[0], h[i]);
      LexTotal(x, x);
    }
    forall i, o | 0 <= i < |segments| && 0 <= o < pos[i] ensures segments[i].terms[o] in consumed' {
      assert segments[i].terms[o] in consumed;
    }
  }

  lemma BelowNext(consumed: seq<gostring>, x: gostring, i: nat)
    requires SortedStrictly(consumed) && i < |consumed|
    requires LexLe(consumed[|consumed| - 1], x) && consumed[|consumed| - 1] != x
    ensures LexLe(consumed[i], x) && consumed[i] != x
  {
    hide LexLe;
    var last := consumed[|consumed| - 1];
    if i < |consumed| - 1 {
      assert LexLe(consumed[i], last) && consumed[i] != last;
      LexTransitive(consumed[i], last, x);
      if consumed[i] == x { LexAntisymmetric(last, x); }
    }
  }

  /** Once no heap item shows the term, all show later ones. */
  lemma BeyondStrict(consumed: seq<gostring>, h: seq<Item>)
    requires consumed != [] && RootLeast(h) && Beyond(consumed, h, false)
    requires h != [] ==> h[0].term != consumed[|consumed| - 1]
    ensures Beyond(consumed, h, true)
  {
    hide LexLe;
    var last := consumed[|consumed| - 1];
    forall i | 0 <= i < |h| ensures h[i].term != last {
      assert ItemLe(h[0], h[i]);
      if h[i].term == last { LexAntisymmetric(last, h[0].term); }
    }
  }

  lemma SegmentAt(segments: seq<Segment>, contents: seq<seq<Doc>>, s: nat)
    requires AllHold(segments, contents) && s < |segments|
    ensures SegmentHolds(segments[s], contents[s]) && SortedStrictly(segments[s].terms)
  {
    hide ListHeld, Small, DistinctIDs;
    assert SegmentHolds(segments[s], contents[s]);
  }

  /** Consume the root's term for its segment. */
  method ConsumeOne(b: IndexBuilder, segments: seq<Segment>, docMap: map<gostring, DocMeta>, h: seq<Item>, pos: seq<nat>,
                    docScratch: array<nat>, tfScratch: array<nat>,
                    ghost contents: seq<seq<Doc>>, ghost truth: map<gostring, Doc>, ghost done: Done, ghost consumed: seq<gostring>)
    returns (h': seq<Item>, pos': seq<nat>, ghost done': Done)
    requires docScratch != tfScratch && docScratch.Length == tfScratch.Length == BLOCK_SIZE
    requires AllHold(segments, contents) && TruthOf(truth, docMap, contents) && b.Valid() && Written(b.docs, truth, done)
    requires PosOk(segments, pos) && HeapIs(h, segments, pos, |segments|) && DoneIs(done, truth, docMap, segments, pos)
    requires Trace(consumed, segments, pos) && Beyond(consumed, h, false)
    requires h != [] && consumed != [] && consumed[|consumed| - 1] == h[0].term
    requires |b.termList| + Left(segments, pos, |segments|) < 0x1_0000_0000
    modifies b, docScratch, tfScratch
    ensures b.Valid() && Written(b.docs, truth, done')
    ensures PosOk(segments, pos') && HeapIs(h', segments, pos', |segments|) && DoneIs(done', truth, docMap, segments, pos')
    ensures Trace(consumed, segments, pos') && Beyond(consumed, h', false)
    ensures |b.termList| + Left(segments, pos', |segments|) < 0x1_0000_0000
    ensures Left(segments, pos', |segments|) < Left(segments, pos, |segments|)
  {
    hide IndexBuilder.Valid, Written, HeapIs, DoneIs, Trace, Beyond, AllHold, TruthOf, SegmentHolds, Emitted, SortedStrictly;
    var x;
    x, h', pos' := Replace(h, segments, pos);
    ghost var s := x.iterIdx;
    SegmentAt(segments, contents, s);
    LeftStep(segments, pos, s, |segments|);
    NotYetEmitted(done, truth, docMap, segments, pos, x);
    SameCount(segments, contents);
    done' := EmitPostings(b, segments[x.iterIdx], x.iterIdx, x.term, docMap, docScratch, tfScratch, contents[s], contents, truth, done);
    DoneStep(done, done', truth, docMap, segments, pos, pos', x);
    TraceStep(consumed, segments, pos, pos', x);
    BeyondStep(consumed, h, h', segments, pos, pos', x);
  }

  lemma SameCount(segments: seq<Segment>, contents: seq<seq<Doc>>)
    requires AllHold(segments, contents)
    ensures |segments| == |contents|
  {
  }
}
