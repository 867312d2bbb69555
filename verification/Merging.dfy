/** MergeSegmentsWithOptions and the order its inputs are given in (internal/segment/merge.go, internal/shard/merge.go). */
module Merging {
  import opened Options
  import opened Bits
  import Collections
  import opened RadixSort
  import opened BlockPack
  import opened PostingFormat
  import opened BuiltIndex
  import opened IndexedDocs
  import opened BuiltIndexFacts
  import opened Builder = IndexBuilder
  import opened MergeHeap
  import opened SegmentContents
  import opened SegmentMerge
  import opened MergeLoop

  function TotalDocs(contents: seq<seq<Doc>>, n: nat): nat
    requires n <= |contents|
  {
    if n == 0 then 0 else TotalDocs(contents, n - 1) + |contents[n - 1]|
  }

  function TotalTerms(segments: seq<Segment>, n: nat): nat
    requires n <= |segments|
  {
    if n == 0 then 0 else TotalTerms(segments, n - 1) + |segments[n - 1].terms|
  }

  ghost function IDs(docs: seq<Doc>): set<gostring> { set d | d in docs :: d.docID }

  lemma {:induction false} IDsCount(docs: seq<Doc>)
    ensures |IDs(docs)| <= |docs|
  {
    if docs != [] {
      var init := docs[..|docs| - 1];
      IDsCount(init);
      assert IDs(docs) == IDs(init) + {docs[|docs| - 1].docID};
    }
  }

  /** No more documents have an owner than there are. */
  lemma {:induction false} OwnedCount(contents: seq<seq<Doc>>, owned: set<gostring>, n: nat)
    requires n <= |contents| && forall id :: id in owned ==> LastHolder(contents, id, n) >= 0
    ensures |owned| <= TotalDocs(contents, n)
  {
    hide HasID, LastHolder;
    if n == 0 {
      NoHolder(contents, owned);
    } else {
      var here := set id | id in owned && HasID(contents[n - 1], id);
      HolderBefore(contents, owned, here, n);
      OwnedCount(contents, owned - here, n - 1);
      HereCount(contents[n - 1], here);
      SplitSize(owned, here);
    }
  }

  lemma NoHolder(contents: seq<seq<Doc>>, owned: set<gostring>)
    requires forall id :: id in owned ==> LastHolder(contents, id, 0) >= 0
    ensures |owned| == 0
  {
    assert owned == {};
  }

  lemma HolderBefore(contents: seq<seq<Doc>>, owned: set<gostring>, here: set<gostring>, n: nat)
    requires 0 < n <= |contents| && forall id :: id in owned ==> LastHolder(contents, id, n) >= 0
    requires forall id :: id in here <==> id in owned && HasID(contents[n - 1], id)
    ensures forall id :: id in owned - here ==> LastHolder(contents, id, n - 1) >= 0
  {
    hide HasID;
  }

  lemma SplitSize(owned: set<gostring>, here: set<gostring>)
    requires here <= owned
    ensures |owned| == |here| + |owned - here|
  {
    assert owned == here + (owned - here);
  }

  lemma HereCount(docs: seq<Doc>, here: set<gostring>)
    requires forall id :: id in here ==> HasID(docs, id)
    ensures |here| <= |docs|
  {
    forall id | id in here ensures id in IDs(docs) {
      var i :| 0 <= i < |docs| && docs[i].docID == id;
    }
    IDsCount(docs);
    Collections.SubsetCount(here, IDs(docs));
  }

  lemma {:induction false} LeftAtStart(segments: seq<Segment>, pos: seq<nat>, n: nat)
    requires PosOk(segments, pos) && n <= |segments| && forall i :: 0 <= i < |pos| ==> pos[i] == 0
    ensures Left(segments, pos, n) == TotalTerms(segments, n)
  {
    if n > 0 { LeftAtStart(segments, pos, n - 1); }
  }

  /** Phase 3: every term of every segment, least first, each once. */
  method MergeTerms(b: IndexBuilder, segments: seq<Segment>, docMap: map<gostring, DocMeta>,
                    ghost contents: seq<seq<Doc>>, ghost truth: map<gostring, Doc>)
    returns (ghost done: Done, ghost consumed: seq<gostring>, ghost pos': seq<nat>)
    requires AllHold(segments, contents) && TruthOf(truth, docMap, contents) && b.Valid() && Written(b.docs, truth, {})
    requires b.termList == [] && TotalTerms(segments, |segments|) < 0x1_0000_0000
    modifies b
    ensures b.Valid() && Written(b.docs, truth, done) && PosOk(segments, pos') && DoneIs(done, truth, docMap, segments, pos')
    ensures forall i :: 0 <= i < |segments| ==> pos'[i] == |segments[i].terms|
    ensures Trace(consumed, segments, pos')
  {
    hide IndexBuilder.Valid, Written, HeapIs, DoneIs, Trace, Beyond, AllHold, TruthOf;
    var docScratch, tfScratch := new nat[BLOCK_SIZE], new nat[BLOCK_SIZE];
    var h, pos := StartHeap(segments);
    consumed, done := [], {};
    StartFacts(segments, pos, truth, docMap, h);
    while |h| > 0
      invariant b.Valid() && Written(b.docs, truth, done)
      invariant PosOk(segments, pos) && HeapIs(h, segments, pos, |segments|) && DoneIs(done, truth, docMap, segments, pos)
      invariant Trace(consumed, segments, pos) && Beyond(consumed, h, true)
      invariant |b.termList| + Left(segments, pos, |segments|) < 0x1_0000_0000
      decreases Left(segments, pos, |segments|)
    {
      var minTerm := h[0].term;
      ghost var before := Left(segments, pos, |segments|);
      RootOf(h, segments, pos);
      TraceNext(consumed, segments, pos, h);
      consumed := consumed + [minTerm];
      h, pos, done := ConsumeOne(b, segments, docMap, h, pos, docScratch, tfScratch, contents, truth, done, consumed);
      while |h| > 0 && h[0].term == minTerm
        invariant b.Valid() && Written(b.docs, truth, done)
        invariant PosOk(segments, pos) && HeapIs(h, segments, pos, |segments|) && DoneIs(done, truth, docMap, segments, pos)
        invariant Trace(consumed, segments, pos) && Beyond(consumed, h, false)
        invariant |b.termList| + Left(segments, pos, |segments|) < 0x1_0000_0000
        invariant Left(segments, pos, |segments|) < before
        decreases Left(segments, pos, |segments|)
      {
        h, pos, done := ConsumeOne(b, segments, docMap, h, pos, docScratch, tfScratch, contents, truth, done, consumed);
      }
      RootOf(h, segments, pos);
      BeyondStrict(consumed, h);
    }
    AllConsumed(h, segments, pos);
    pos' := pos;
  }

  lemma StartFacts(segments: seq<Segment>, pos: seq<nat>, truth: map<gostring, Doc>, docMap: map<gostring, DocMeta>, h: seq<Item>)
    requires pos == seq(|segments|, _ => 0)
    ensures PosOk(segments, pos) && DoneIs({}, truth, docMap, segments, pos) && Trace([], segments, pos) && Beyond([], h, true)
    ensures Left(segments, pos, |segments|) == TotalTerms(segments, |segments|)
  {
    hide SortedStrictly;
    assert SortedStrictly([]) by { EmptySorted(); }
    LeftAtStart(segments, pos, |segments|);
  }

  lemma EmptySorted()
    ensures SortedStrictly([])
  {
  }

  lemma RootOf(h: seq<Item>, segments: seq<Segment>, pos: seq<nat>)
    requires |pos| == |segments| && HeapIs(h, segments, pos, |segments|)
    ensures RootLeast(h) && (h != [] ==> Listed(segments, h[0].term))
  {
    if h != [] { InHeap(h, segments, pos, |segments|, 0); }
  }

  lemma AllConsumed(h: seq<Item>, segments: seq<Segment>, pos: seq<nat>)
    requires PosOk(segments, pos) && HeapIs(h, segments, pos, |segments|) && h == []
    ensures forall i :: 0 <= i < |segments| ==> pos[i] == |segments[i].terms|
  {
    forall i | 0 <= i < |segments| ensures pos[i] == |segments[i].terms| {
      var x := Item(if pos[i] < |segments[i].terms| then segments[i].terms[pos[i]] else [], i);
      assert multiset(h)[x] == if IsCurrent(segments, pos, x, |segments|) then 1 else 0;
    }
  }

  // ----- the result

  /** Once every term is consumed, every surviving document is complete. */
  lemma Complete(docs: seq<Doc>, segments: seq<Segment>, contents: seq<seq<Doc>>, truth: map<gostring, Doc>, docMap: map<gostring, DocMeta>,
                 done: Done, pos: seq<nat>, i: nat)
    requires AllHold(segments, contents) && TruthOf(truth, docMap, contents) && Written(docs, truth, done)
    requires PosOk(segments, pos) && DoneIs(done, truth, docMap, segments, pos)
    requires forall i :: 0 <= i < |segments| ==> pos[i] == |segments[i].terms|
    requires i < |docs|
    ensures docs[i].docID in truth && docs[i] == truth[docs[i].docID]
  {
    hide AllHold, SortedStrictly, HasID;
    var id := docs[i].docID;
    var d, s := truth[id], docMap[id].segIdx;
    SameCount(segments, contents);
    forall t | t in d.tfs ensures (t, id) in done {
      OwnTerms(segments, contents, s, d, t);
      assert segments[s].terms[..pos[s]] == segments[s].terms;
    }
    assert Partial(d, done).tfs == d.tfs;
  }

  lemma OwnTerms(segments: seq<Segment>, contents: seq<seq<Doc>>, s: nat, d: Doc, t: gostring)
    requires AllHold(segments, contents) && s < |segments| && d in contents[s] && t in d.tfs
    ensures t in segments[s].terms
  {
    hide ListHeld, Small, DistinctIDs, SortedStrictly;
    assert SegmentHolds(segments[s], contents[s]);
    var i :| 0 <= i < |contents[s]| && contents[s][i] == d;
    assert TermsIn(contents[s][i], segments[s].terms);
  }

  /** Exactly the surviving versions are in the merged documents. */
  lemma MergedAreSurvivors(docs: seq<Doc>, contents: seq<seq<Doc>>, tombstones: set<gostring>, truth: map<gostring, Doc>,
                           docMap: map<gostring, DocMeta>, done: Done, d: Doc)
    requires MapOf(docMap, contents, tombstones, LastOf(contents, |contents|)) && TruthOf(truth, docMap, contents)
    requires Written(docs, truth, done) && (forall i :: 0 <= i < |docs| ==> docs[i].docID in truth && docs[i] == truth[docs[i].docID])
    requires forall s :: 0 <= s < |contents| ==> DistinctIDs(contents[s])
    ensures d in docs <==> Survives(contents, tombstones, d)
  {
    hide Entry, Written;
    if d in docs {
      var s := docMap[d.docID].segIdx;
      assert s == LastHolder(contents, d.docID, |contents|);
    }
    if Survives(contents, tombstones, d) {
      var s :| 0 <= s < |contents| && d in contents[s] && forall k :: s < k < |contents| ==> !HasID(contents[k], d.docID);
      HeldBy(contents, d, s);
      var t := truth[d.docID];
      SameByID(contents[s], t, d);
      FindDoc(docs, truth, done, d.docID);
    }
  }

  lemma HeldBy(contents: seq<seq<Doc>>, d: Doc, s: nat)
    requires s < |contents| && d in contents[s] && forall k :: s < k < |contents| ==> !HasID(contents[k], d.docID)
    ensures LastHolder(contents, d.docID, |contents|) == s
  {
    var i :| 0 <= i < |contents[s]| && contents[s][i] == d;
    assert HasID(contents[s], d.docID);
  }

  lemma SameByID(docs: seq<Doc>, a: Doc, b: Doc)
    requires DistinctIDs(docs) && a in docs && b in docs && a.docID == b.docID
    ensures a == b
  {
  }

  lemma FindDoc(docs: seq<Doc>, truth: map<gostring, Doc>, done: Done, id: gostring)
    requires Written(docs, truth, done) && id in truth
    ensures exists i :: 0 <= i < |docs| && docs[i].docID == id
  {
    assert HasID(docs, id);
  }

  /**
   MergeSegmentsWithOptions: no inputs is an error; otherwise the output holds,
   for every document that is not tombstoned, exactly the version of the last
   input that has it, and nothing else.
   */
  method MergeSegments(segments: seq<Segment>, tombstones: set<gostring>, k: BuildScoring, ghost contents: seq<seq<Doc>>)
    returns (out: Option<Segment>, ghost merged: seq<Doc>, ghost consumed: seq<gostring>)
    requires AllHold(segments, contents)
    requires TotalDocs(contents, |contents|) < 0xFFFF_FFFF && TotalTerms(segments, |segments|) < 0x1_0000_0000
    ensures out.None? <==> segments == []
    ensures out.Some? ==> SegmentHolds(out.value, merged) && forall d :: d in merged <==> Survives(contents, tombstones, d)
    ensures out.Some? ==> SortedStrictly(consumed) && forall t :: t in consumed <==> Listed(segments, t)
  {
    hide IndexBuilder.Valid, Written, AllHold, TruthOf, MapOf, Survives, SegmentHolds, IsIndexOf, LastHolder, DoneIs, Trace;
    merged, consumed := [], [];
    if |segments| == 0 {
      return None, [], [];
    }
    var docMap := BuildDocMap(segments, tombstones, contents);
    OwnersFit(docMap, contents, tombstones);
    ghost var truth := MakeTruth(docMap, contents, tombstones, LastOf(contents, |contents|));
    var b := RegisterAll(docMap, truth, contents);
    ghost var done, pos;
    done, consumed, pos := MergeTerms(b, segments, docMap, contents, truth);
    forall i | 0 <= i < |b.docs| ensures b.docs[i].docID in truth && b.docs[i] == truth[b.docs[i].docID] {
      Complete(b.docs, segments, contents, truth, docMap, done, pos, i);
    }
    DistinctContents(segments, contents);
    forall d ensures d in b.docs <==> Survives(contents, tombstones, d) {
      MergedAreSurvivors(b.docs, contents, tombstones, truth, docMap, done, d);
    }
    WrittenDistinct(b.docs, truth, done);
    merged := b.docs;
    b.VocabularyCovers();
    var idx := b.Build(k);
    IndexMakesSegment(idx, merged, b.Vocabulary(), k);
    out := Some(SegmentOf(idx));
    WholeTrace(consumed, segments, pos);
  }

  lemma OwnersFit(docMap: map<gostring, DocMeta>, contents: seq<seq<Doc>>, tombstones: set<gostring>)
    requires MapOf(docMap, contents, tombstones, LastOf(contents, |contents|))
    ensures |docMap| <= TotalDocs(contents, |contents|)
  {
    hide Entry, LastHolder;
    OwnedCount(contents, docMap.Keys, |contents|);
    assert |docMap.Keys| == |docMap|;
  }

  lemma DistinctContents(segments: seq<Segment>, contents: seq<seq<Doc>>)
    requires AllHold(segments, contents)
    ensures forall s :: 0 <= s < |contents| ==> DistinctIDs(contents[s])
  {
    hide TermsHeld, Small, DistinctIDs;
    forall s | 0 <= s < |contents| ensures DistinctIDs(contents[s]) {
      assert SegmentHolds(segments[s], contents[s]);
    }
  }

  lemma WrittenDistinct(docs: seq<Doc>, truth: map<gostring, Doc>, done: Done)
    requires Written(docs, truth, done)
    ensures DistinctIDs(docs)
  {
  }

  lemma WholeTrace(consumed: seq<gostring>, segments: seq<Segment>, pos: seq<nat>)
    requires PosOk(segments, pos) && Trace(consumed, segments, pos)
    requires forall i :: 0 <= i < |segments| ==> pos[i] == |segments[i].terms|
    ensures SortedStrictly(consumed) && forall t :: t in consumed <==> Listed(segments, t)
  {
    hide SortedStrictly;
    forall t ensures t in consumed <==> Listed(segments, t) {
      if Listed(segments, t) {
        var s :| 0 <= s < |segments| && t in segments[s].terms;
        var o :| 0 <= o < |segments[s].terms| && segments[s].terms[o] == t;
      }
    }
  }

  // ----- what survives, by flush sequence number and by posting

  /** FlushSeqs of the inputs, oldest first, no two equal. */
  ghost predicate OldestFirst(flushSeqs: seq<int>) {
    forall i, j :: 0 <= i < j < |flushSeqs| ==> flushSeqs[i] < flushSeqs[j]
  }

  /** With inputs in order of FlushSeq, the version kept is the one flushed last. */
  lemma NewestSurvives(contents: seq<seq<Doc>>, flushSeqs: seq<int>, tombstones: set<gostring>, d: Doc)
    requires |flushSeqs| == |contents| && OldestFirst(flushSeqs)
    ensures Survives(contents, tombstones, d) <==>
              d.docID !in tombstones
              && exists s :: 0 <= s < |contents| && d in contents[s]
                             && forall k :: 0 <= k < |contents| && HasID(contents[k], d.docID) ==> flushSeqs[k] <= flushSeqs[s]
  {
    hide HasID;
    if d.docID !in tombstones {
      forall s | 0 <= s < |contents|
        ensures (forall k :: s < k < |contents| ==> !HasID(contents[k], d.docID))
           <==> (forall k :: 0 <= k < |contents| && HasID(contents[k], d.docID) ==> flushSeqs[k] <= flushSeqs[s])
      {
        if forall k :: 0 <= k < |contents| && HasID(contents[k], d.docID) ==> flushSeqs[k] <= flushSeqs[s] {
          forall k | s < k < |contents| ensures !HasID(contents[k], d.docID) {
            assert flushSeqs[s] < flushSeqs[k];
          }
        }
      }
    }
  }

  /** (term, document, frequency) is a posting of docs. */
  ghost predicate HasPosting(docs: seq<Doc>, t: gostring, id: gostring, tf: nat) {
    exists i :: 0 <= i < |docs| && docs[i].docID == id && t in docs[i].tfs && docs[i].tfs[t] == tf
  }

  /** A posting is in the output exactly when the last input holding its document has it and the document is not deleted. */
  lemma MergedPostings(merged: seq<Doc>, contents: seq<seq<Doc>>, tombstones: set<gostring>, t: gostring, id: gostring, tf: nat)
    requires forall d :: d in merged <==> Survives(contents, tombstones, d)
    ensures HasPosting(merged, t, id, tf) <==>
              id !in tombstones && exists s :: 0 <= s < |contents| && HasPosting(contents[s], t, id, tf)
                                               && forall k :: s < k < |contents| ==> !HasID(contents[k], id)
  {
    hide HasID;
    if HasPosting(merged, t, id, tf) {
      var i :| 0 <= i < |merged| && merged[i].docID == id && t in merged[i].tfs && merged[i].tfs[t] == tf;
      assert Survives(contents, tombstones, merged[i]);
    }
    if s :| id !in tombstones && 0 <= s < |contents| && HasPosting(contents[s], t, id, tf)
            && forall k :: s < k < |contents| ==> !HasID(contents[k], id)
    {
      var i :| 0 <= i < |contents[s]| && contents[s][i].docID == id && t in contents[s][i].tfs && contents[s][i].tfs[t] == tf;
      assert Survives(contents, tombstones, contents[s][i]);
    }
  }

  /** ordered and keys are segs and flushSeqs rearranged by perm, in ascending order of key. */
  ghost predicate Arranged(segs: seq<Segment>, flushSeqs: seq<int>, ordered: seq<Segment>, keys: seq<int>, perm: seq<nat>) {
    && |segs| == |flushSeqs| == |ordered| == |keys| == |perm| && OldestFirst(keys)
    && forall i :: 0 <= i < |perm| ==> perm[i] < |segs| && ordered[i] == segs[perm[i]] && keys[i] == flushSeqs[perm[i]]
  }

  /** orderSegmentsByFlushSeq: the segments in ascending FlushSeq, each still with its own. */
  method OrderByFlushSeq(segs: seq<Segment>, flushSeqs: seq<int>) returns (ordered: seq<Segment>, ghost seqs: seq<int>, ghost perm: seq<nat>)
    requires |segs| == |flushSeqs| && forall i, j :: 0 <= i < j < |flushSeqs| ==> flushSeqs[i] != flushSeqs[j]
    ensures Arranged(segs, flushSeqs, ordered, seqs, perm) && multiset(ordered) == multiset(segs)
  {
    var keys: seq<int>;
    ordered, keys, perm := [], [], [];
    for n := 0 to |segs|
      invariant |ordered| == |keys| == n
      invariant Arranged(segs[..n], flushSeqs[..n], ordered, keys, perm) && multiset(ordered) == multiset(segs[..n])
    {
      hide Arranged, OldestFirst;
      NewKey(segs, flushSeqs, ordered, keys, perm, n);
      assert segs[..n + 1] == segs[..n] + [segs[n]] && flushSeqs[..n + 1] == flushSeqs[..n] + [flushSeqs[n]];
      ordered, keys, perm := InsertSegment(segs[..n], flushSeqs[..n], segs[n], flushSeqs[n], ordered, keys, perm);
    }
    assert segs[..|segs|] == segs && flushSeqs[..|segs|] == flushSeqs;
    seqs := keys;
  }

  method InsertSegment(ghost segs: seq<Segment>, ghost flushSeqs: seq<int>, seg: Segment, key: int,
                       ordered0: seq<Segment>, keys0: seq<int>, ghost perm0: seq<nat>)
    returns (ordered: seq<Segment>, keys: seq<int>, ghost perm: seq<nat>)
    requires Arranged(segs, flushSeqs, ordered0, keys0, perm0) && |ordered0| == |keys0| == |perm0| == |segs|
    requires multiset(ordered0) == multiset(segs) && forall i :: 0 <= i < |keys0| ==> keys0[i] != key
    ensures Arranged(segs + [seg], flushSeqs + [key], ordered, keys, perm) && |ordered| == |keys| == |segs| + 1
    ensures multiset(ordered) == multiset(segs + [seg])
  {
    hide Arranged, OldestFirst;
    var at := Place(keys0, key);
    PlaceKeeps(segs, flushSeqs, ordered0, keys0, perm0, seg, key, at);
    SpliceBag(ordered0, seg, at);
    ordered := ordered0[..at] + [seg] + ordered0[at..];
    keys := keys0[..at] + [key] + keys0[at..];
    perm := perm0[..at] + [|segs|] + perm0[at..];
  }

  method Place(keys: seq<int>, key: int) returns (at: nat)
    ensures at <= |keys| && (forall i :: at <= i < |keys| ==> keys[i] > key) && (at > 0 ==> keys[at - 1] <= key)
  {
    at := |keys|;
    while at > 0 && keys[at - 1] > key
      invariant 0 <= at <= |keys| && forall i :: at <= i < |keys| ==> keys[i] > key
    {
      at := at - 1;
    }
  }

  lemma NewKey(segs: seq<Segment>, flushSeqs: seq<int>, ordered: seq<Segment>, keys: seq<int>, perm: seq<nat>, n: nat)
    requires n < |segs| == |flushSeqs| && forall i, j :: 0 <= i < j < |flushSeqs| ==> flushSeqs[i] != flushSeqs[j]
    requires Arranged(segs[..n], flushSeqs[..n], ordered, keys, perm)
    ensures |perm| == |ordered| == |keys| == |segs[..n]| == n && forall i :: 0 <= i < |keys| ==> keys[i] != flushSeqs[n]
  {
    forall i | 0 <= i < |keys| ensures keys[i] != flushSeqs[n] {
      assert keys[i] == flushSeqs[perm[i]];
    }
  }

  lemma PlaceKeeps(segs: seq<Segment>, flushSeqs: seq<int>, ordered: seq<Segment>, keys: seq<int>, perm: seq<nat>,
                   seg: Segment, key: int, at: nat)
    requires Arranged(segs, flushSeqs, ordered, keys, perm)
    requires at <= |keys| && (forall i :: at <= i < |keys| ==> keys[i] > key) && (at > 0 ==> keys[at - 1] <= key)
    requires forall i :: 0 <= i < |keys| ==> keys[i] != key
    ensures Arranged(segs + [seg], flushSeqs + [key], ordered[..at] + [seg] + ordered[at..], keys[..at] + [key] + keys[at..],
                     perm[..at] + [|segs|] + perm[at..])
  {
    SpliceOrder(keys, key, at);
    hide OldestFirst;
    var ordered', keys', perm' := ordered[..at] + [seg] + ordered[at..], keys[..at] + [key] + keys[at..], perm[..at] + [|segs|] + perm[at..];
    forall i | 0 <= i < |perm'|
      ensures perm'[i] < |segs| + 1 && ordered'[i] == (segs + [seg])[perm'[i]] && keys'[i] == (flushSeqs + [key])[perm'[i]]
    {
      var from := if i < at then i else i - 1;
      if i != at { assert ordered'[i] == ordered[from] && keys'[i] == keys[from] && perm'[i] == perm[from]; }
    }
  }

  lemma SpliceBag(a: seq<Segment>, x: Segment, at: nat)
    requires at <= |a|
    ensures multiset(a[..at] + [x] + a[at..]) == multiset(a) + multiset{x}
  {
    assert a == a[..at] + a[at..];
  }

  lemma SpliceOrder(keys: seq<int>, key: int, at: nat)
    requires OldestFirst(keys) && at <= |keys| && (forall i :: at <= i < |keys| ==> keys[i] > key)
    requires at > 0 ==> keys[at - 1] < key
    ensures OldestFirst(keys[..at] + [key] + keys[at..])
  {
  }
}
