/** The tables of the index builder and the records it accumulates (internal/index/builder.go). */
module BuilderTables {
  import opened Bits
  import opened Collections
  import opened RadixSort
  import opened BuiltIndex

  /** How often each token occurs. */
  function Counts(tokens: seq<gostring>): (tf: map<gostring, nat>)
    ensures forall t :: t in tf <==> t in tokens
    ensures forall t :: t in tf ==> 0 < tf[t] == multiset(tokens)[t] <= |tokens|
  {
    if tokens == [] then map[] else
      var t := tokens[|tokens| - 1];
      var init := tokens[..|tokens| - 1];
      var tf := Counts(init);
      assert tokens == init + [t];
      tf[t := (if t in tf then tf[t] else 0) + 1]
  }

  ghost function Terms(list: seq<gostring>): set<gostring> { set t | t in list }

  /** Records name a term of a document; every term of every document has one; none repeats. */
  ghost predicate Recorded(postings: seq<RawPosting>, docs: seq<Doc>, termList: seq<gostring>) {
    && (forall i :: 0 <= i < |postings| ==> Sound(postings[i], docs, termList))
    && (forall d, t :: 0 <= d < |docs| && t in docs[d].tfs ==> HasRecord(postings, docs, termList, d, t))
    && (forall i, j :: 0 <= i < j < |postings| ==> postings[i] != postings[j])
  }

  ghost predicate Sound(p: RawPosting, docs: seq<Doc>, termList: seq<gostring>) {
    && p.docID < |docs| && p.termID < |termList|
    && termList[p.termID] in docs[p.docID].tfs && docs[p.docID].tfs[termList[p.termID]] == p.tf
  }

  ghost predicate HasRecord(postings: seq<RawPosting>, docs: seq<Doc>, termList: seq<gostring>, d: nat, t: gostring)
    requires d < |docs| && t in docs[d].tfs
  {
    exists i :: 0 <= i < |postings| && postings[i].docID == d && postings[i].termID < |termList|
                && termList[postings[i].termID] == t && postings[i].tf == docs[d].tfs[t]
  }

  /** Slots are versions; a slot is live exactly when it holds its document's last version. */
  ghost predicate Slots(docs: seq<Doc>, docList: seq<gostring>, docLens: seq<nat>, docLive: seq<bool>) {
    && |docList| == |docLens| == |docLive| == |docs| < 0x1_0000_0000
    && forall i :: 0 <= i < |docs| ==>
         docList[i] == docs[i].docID && docLens[i] == docs[i].len && docLive[i] == IsLast(docs, i)
  }

  ghost predicate Superseded(docLive: seq<bool>) {
    exists i :: 0 <= i < |docLive| && !docLive[i]
  }

  /** Every document's newest slot. */
  ghost predicate Newest(docToID: map<gostring, nat>, docs: seq<Doc>) {
    && (forall s :: s in docToID ==> docToID[s] < |docs| && docs[docToID[s]].docID == s && IsLast(docs, docToID[s]))
    && (forall i :: 0 <= i < |docs| ==> docs[i].docID in docToID)
  }

  ghost predicate TermTables(termToID: map<gostring, nat>, termList: seq<gostring>) {
    && |termList| < 0x1_0000_0000
    && (forall t :: t in termToID ==> termToID[t] < |termList| && termList[termToID[t]] == t)
    && (forall i :: 0 <= i < |termList| ==> termList[i] in termToID && termToID[termList[i]] == i)
  }

  // ----- what the operations keep

  lemma MoreDocs(postings: seq<RawPosting>, docs: seq<Doc>, d: Doc, termList: seq<gostring>)
    requires Recorded(postings, docs, termList) && d.tfs == map[]
    ensures Recorded(postings, docs + [d], termList)
  {
    var docs' := docs + [d];
    forall i | 0 <= i < |postings| ensures Sound(postings[i], docs', termList) {
      assert Sound(postings[i], docs, termList);
    }
    forall e, t | 0 <= e < |docs'| && t in docs'[e].tfs ensures HasRecord(postings, docs', termList, e, t) {
      assert HasRecord(postings, docs, termList, e, t);
    }
  }

  lemma MoreTerms(postings: seq<RawPosting>, docs: seq<Doc>, termList: seq<gostring>, term: gostring)
    requires Recorded(postings, docs, termList)
    ensures Recorded(postings, docs, termList + [term])
  {
    var termList' := termList + [term];
    forall i | 0 <= i < |postings| ensures Sound(postings[i], docs, termList') {
      assert Sound(postings[i], docs, termList);
    }
    forall e, t | 0 <= e < |docs| && t in docs[e].tfs ensures HasRecord(postings, docs, termList', e, t) {
      assert HasRecord(postings, docs, termList, e, t);
    }
  }

  lemma MoreRecords(postings: seq<RawPosting>, docs: seq<Doc>, termList: seq<gostring>, tid: nat, did: nat, tf: nat)
    requires Recorded(postings, docs, termList) && Distinct(termList)
    requires tid < |termList| < 0x1_0000_0000 && did < |docs| < 0x1_0000_0000 && tf < 0x1_0000_0000
    requires termList[tid] !in docs[did].tfs
    ensures Recorded(postings + [RawPosting(tid, did, tf)], docs[did := docs[did].(tfs := docs[did].tfs[termList[tid] := tf])], termList)
  {
    hide Sound, HasRecord;
    var p := RawPosting(tid, did, tf);
    var d := docs[did].(tfs := docs[did].tfs[termList[tid] := tf]);
    var docs' := docs[did := d];
    forall i | 0 <= i < |postings| ensures Sound(postings[i], docs', termList) && postings[i] != p {
      StaysSound(postings[i], docs, termList, did, d);
      NotYet(postings[i], docs, termList, p);
    }
    NewIsSound(p, docs, termList, d);
    forall e, t | 0 <= e < |docs| && t in docs'[e].tfs ensures HasRecord(postings + [p], docs', termList, e, t) {
      if e == did && t == termList[tid] {
        NewIsRecord(postings, docs', termList, p);
      } else {
        StaysRecorded(postings, docs, termList, p, did, d, e, t);
      }
    }
  }

  lemma StaysSound(q: RawPosting, docs: seq<Doc>, termList: seq<gostring>, did: nat, d: Doc)
    requires Sound(q, docs, termList) && did < |docs|
    requires forall t :: t in docs[did].tfs ==> t in d.tfs && d.tfs[t] == docs[did].tfs[t]
    ensures Sound(q, docs[did := d], termList)
  {
  }

  lemma NotYet(q: RawPosting, docs: seq<Doc>, termList: seq<gostring>, p: RawPosting)
    requires Sound(q, docs, termList) && p.docID < |docs| && p.termID < |termList|
    requires termList[p.termID] !in docs[p.docID].tfs
    ensures q != p
  {
  }

  lemma NewIsSound(p: RawPosting, docs: seq<Doc>, termList: seq<gostring>, d: Doc)
    requires p.docID < |docs| && p.termID < |termList| && termList[p.termID] in d.tfs && d.tfs[termList[p.termID]] == p.tf
    ensures Sound(p, docs[p.docID := d], termList)
  {
  }

  lemma NewIsRecord(postings: seq<RawPosting>, docs: seq<Doc>, termList: seq<gostring>, p: RawPosting)
    requires Sound(p, docs, termList)
    ensures HasRecord(postings + [p], docs, termList, p.docID, termList[p.termID])
  {
    assert (postings + [p])[|postings|] == p;
  }

  lemma StaysRecorded(postings: seq<RawPosting>, docs: seq<Doc>, termList: seq<gostring>, p: RawPosting, did: nat, d: Doc,
                      e: nat, t: gostring)
    requires e < |docs| && did < |docs| && t in docs[e].tfs && HasRecord(postings, docs, termList, e, t)
    requires t in docs[did := d][e].tfs && docs[did := d][e].tfs[t] == docs[e].tfs[t]
    ensures HasRecord(postings + [p], docs[did := d], termList, e, t)
  {
    var i :| 0 <= i < |postings| && postings[i].docID == e && postings[i].termID < |termList|
             && termList[postings[i].termID] == t && postings[i].tf == docs[e].tfs[t];
    assert (postings + [p])[i] == postings[i];
  }

  lemma LastAfter(docs: seq<Doc>, d: Doc, i: nat)
    requires i < |docs|
    ensures IsLast(docs + [d], i) <==> IsLast(docs, i) && docs[i].docID != d.docID
  {
    var docs' := docs + [d];
    assert docs'[|docs|] == d && docs'[i] == docs[i] && forall j :: 0 <= j < |docs| ==> docs'[j] == docs[j];
  }

  /** Appending a version to the tables, and superseding the one before it. */
  lemma NewSlot(docs: seq<Doc>, docList: seq<gostring>, docLens: seq<nat>, docLive: seq<bool>, docToID: map<gostring, nat>, d: Doc)
    requires Slots(docs, docList, docLens, docLive) && Newest(docToID, docs) && Small(docs)
    requires |docs| + 1 < 0x1_0000_0000 && d.tfs == map[]
    ensures d.docID in docToID ==> docToID[d.docID] < |docLive|
    ensures |docList| == |docs| == |docLive|
    ensures var live := if d.docID in docToID then docLive[docToID[d.docID] := false] else docLive;
            && Slots(docs + [d], docList + [d.docID], docLens + [d.len], live + [true])
            && Superseded(live + [true]) == (Superseded(docLive) || d.docID in docToID)
    ensures Newest(docToID[d.docID := |docs|], docs + [d]) && Small(docs + [d])
  {
    var docs' := docs + [d];
    var live := if d.docID in docToID then docLive[docToID[d.docID] := false] else docLive;
    forall i | 0 <= i < |docs| ensures (live + [true])[i] == IsLast(docs', i) {
      LastAfter(docs, d, i);
      OnlyNewest(docs, docToID, d.docID, i);
    }
    SupersededMore(docLive, live, if d.docID in docToID then docToID[d.docID] else |docLive|);
    NewestMore(docs, docToID, d);
  }

  lemma NewestMore(docs: seq<Doc>, docToID: map<gostring, nat>, d: Doc)
    requires Newest(docToID, docs)
    ensures Newest(docToID[d.docID := |docs|], docs + [d])
  {
    hide IsLast;
    var docs', to := docs + [d], docToID[d.docID := |docs|];
    NewIsLast(docs, d);
    forall s | s in to ensures to[s] < |docs'| && docs'[to[s]].docID == s && IsLast(docs', to[s]) {
      if s != d.docID { LastAfter(docs, d, docToID[s]); }
    }
    forall i | 0 <= i < |docs'| ensures docs'[i].docID in to {
    }
  }

  lemma NewIsLast(docs: seq<Doc>, d: Doc)
    ensures IsLast(docs + [d], |docs|)
  {
  }

  lemma OnlyNewest(docs: seq<Doc>, docToID: map<gostring, nat>, s: gostring, i: nat)
    requires Newest(docToID, docs) && i < |docs|
    ensures IsLast(docs, i) && docs[i].docID == s <==> s in docToID && docToID[s] == i
  {
  }

  lemma SupersededMore(docLive: seq<bool>, live: seq<bool>, at: nat)
    requires at <= |docLive| && live == if at < |docLive| then docLive[at := false] else docLive
    ensures Superseded(live + [true]) == (Superseded(docLive) || at < |docLive|)
  {
    var all := live + [true];
    if at < |docLive| { assert !all[at]; }
    if i :| 0 <= i < |docLive| && !docLive[i] { assert !all[i]; }
    if i :| 0 <= i < |all| && !all[i] { assert i < |docLive|; }
  }

  /** Giving a version one more term changes no table. */
  lemma SameSlots(docs: seq<Doc>, docList: seq<gostring>, docLens: seq<nat>, docLive: seq<bool>, docToID: map<gostring, nat>,
                  did: nat, d: Doc)
    requires Slots(docs, docList, docLens, docLive) && Newest(docToID, docs)
    requires did < |docs| && d.docID == docs[did].docID && d.len == docs[did].len
    ensures Slots(docs[did := d], docList, docLens, docLive) && Newest(docToID, docs[did := d])
  {
    forall i | 0 <= i < |docs| ensures IsLast(docs[did := d], i) == IsLast(docs, i) {
      SameLast(docs, did, d, i);
    }
  }

  lemma SameLast(docs: seq<Doc>, did: nat, d: Doc, i: nat)
    requires did < |docs| && d.docID == docs[did].docID && i < |docs|
    ensures IsLast(docs[did := d], i) == IsLast(docs, i)
  {
    var docs' := docs[did := d];
    assert forall j :: 0 <= j < |docs| ==> docs'[j].docID == docs[j].docID;
    if !IsLast(docs, i) {
      var j :| i < j < |docs| && docs[j].docID == docs[i].docID;
      assert docs'[j].docID == docs'[i].docID;
    }
  }

  lemma DistinctTerms(termToID: map<gostring, nat>, termList: seq<gostring>)
    requires TermTables(termToID, termList)
    ensures Distinct(termList) && |termList| < 0x1_0000_0000
  {
  }

  lemma TotalSnoc(docs: seq<Doc>, d: Doc)
    ensures TotalLen(docs + [d]) == TotalLen(docs) + d.len
  {
    assert (docs + [d])[..|docs|] == docs;
  }

  lemma SameTerms(tokens: seq<gostring>, tf: map<gostring, nat>)
    requires tf == Counts(tokens)
    ensures Terms(tokens) == tf.Keys
  {
  }

  lemma {:induction false} DistinctCount(tokens: seq<gostring>)
    ensures |Counts(tokens).Keys| <= |tokens|
  {
    if tokens != [] {
      var init := tokens[..|tokens| - 1];
      DistinctCount(init);
      assert Counts(tokens).Keys == Counts(init).Keys + {tokens[|tokens| - 1]};
    }
  }
}
