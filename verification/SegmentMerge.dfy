/** Merging segments, phases 1 to 3 (internal/segment/merge.go). */
module SegmentMerge {
  import opened Options
  import opened Bits
  import opened RadixSort
  import opened PostingFormat
  import opened BuiltIndex
  import opened BuilderTables
  import opened Builder = IndexBuilder
  import opened MergeHeap
  import opened SegmentContents

  datatype DocMeta = DocMeta(docLen: nat, segIdx: nat)

  ghost predicate AllHold(segments: seq<Segment>, contents: seq<seq<Doc>>) {
    |segments| == |contents| && forall s :: 0 <= s < |segments| ==> SegmentHolds(segments[s], contents[s])
  }

  // ----- phase 1: who owns each document

  ghost predicate HasIDUpTo(docs: seq<Doc>, id: gostring, n: nat)
    requires n <= |docs|
  {
    exists i :: 0 <= i < n && docs[i].docID == id
  }

  /** The owner of id once n documents of segment s have been looked at; -1 for none. */
  ghost function Owner(contents: seq<seq<Doc>>, id: gostring, s: nat, n: nat): int
    requires s < |contents| && n <= |contents[s]|
  {
    if HasIDUpTo(contents[s], id, n) then s else LastHolder(contents, id, s)
  }

  ghost predicate Entry(meta: DocMeta, contents: seq<seq<Doc>>, id: gostring) {
    meta.segIdx < |contents|
    && exists i :: 0 <= i < |contents[meta.segIdx]| && contents[meta.segIdx][i].docID == id && contents[meta.segIdx][i].len == meta.docLen
  }

  ghost predicate MapOf(docMap: map<gostring, DocMeta>, contents: seq<seq<Doc>>, tombstones: set<gostring>, owner: gostring -> int) {
    && (forall id :: id in docMap <==> id !in tombstones && owner(id) >= 0)
    && (forall id :: id in docMap ==> docMap[id].segIdx == owner(id) && Entry(docMap[id], contents, id))
  }

  ghost function OwnerAt(contents: seq<seq<Doc>>, s: nat, n: nat): gostring -> int
    requires s < |contents| && n <= |contents[s]|
  {
    (id: gostring) => Owner(contents, id, s, n)
  }

  ghost function LastOf(contents: seq<seq<Doc>>, n: nat): gostring -> int
    requires n <= |contents|
  {
    (id: gostring) => LastHolder(contents, id, n)
  }

  method BuildDocMap(segments: seq<Segment>, tombstones: set<gostring>, ghost contents: seq<seq<Doc>>)
    returns (docMap: map<gostring, DocMeta>)
    requires AllHold(segments, contents)
    ensures MapOf(docMap, contents, tombstones, LastOf(contents, |contents|))
  {
    hide TermsHeld, Small, DistinctIDs;
    docMap := map[];
    for s := 0 to |segments|
      invariant MapOf(docMap, contents, tombstones, LastOf(contents, s))
    {
      hide MapOf;
      assert SegmentHolds(segments[s], contents[s]);
      docMap := AddSegment(segments[s], s, docMap, tombstones, contents);
    }
  }

  method AddSegment(seg: Segment, s: nat, docMap0: map<gostring, DocMeta>, tombstones: set<gostring>, ghost contents: seq<seq<Doc>>)
    returns (docMap: map<gostring, DocMeta>)
    requires s < |contents| && SegmentHolds(seg, contents[s]) && MapOf(docMap0, contents, tombstones, LastOf(contents, s))
    ensures MapOf(docMap, contents, tombstones, LastOf(contents, s + 1))
  {
    hide TermsHeld, Small, MapOf;
    docMap := docMap0;
    NoneYet(docMap, contents, tombstones, s);
    for i := 0 to |seg.docIDs|
      invariant MapOf(docMap, contents, tombstones, OwnerAt(contents, s, i))
    {
      NextDoc(docMap, contents, tombstones, s, i);
      var strID := seg.docIDs[i];
      if strID in tombstones {
        continue;
      }
      if strID !in docMap || s > docMap[strID].segIdx {
        docMap := docMap[strID := DocMeta(seg.docLens[i], s)];
      }
    }
    AllSeen(docMap, contents, tombstones, s);
  }

  lemma NoneYet(docMap: map<gostring, DocMeta>, contents: seq<seq<Doc>>, tombstones: set<gostring>, s: nat)
    requires s < |contents| && MapOf(docMap, contents, tombstones, LastOf(contents, s))
    ensures MapOf(docMap, contents, tombstones, OwnerAt(contents, s, 0))
  {
    hide Entry;
  }

  lemma AllSeen(docMap: map<gostring, DocMeta>, contents: seq<seq<Doc>>, tombstones: set<gostring>, s: nat)
    requires s < |contents| && MapOf(docMap, contents, tombstones, OwnerAt(contents, s, |contents[s]|))
    ensures MapOf(docMap, contents, tombstones, LastOf(contents, s + 1))
  {
    hide Entry;
    forall id ensures Owner(contents, id, s, |contents[s]|) == LastHolder(contents, id, s + 1) {
    }
  }

  /** One more document: its owner becomes s, the others keep theirs. */
  lemma NextDoc(docMap: map<gostring, DocMeta>, contents: seq<seq<Doc>>, tombstones: set<gostring>, s: nat, i: nat)
    requires s < |contents| && i < |contents[s]| && DistinctIDs(contents[s])
    requires MapOf(docMap, contents, tombstones, OwnerAt(contents, s, i))
    ensures var d := contents[s][i];
            && (d.docID in tombstones ==> MapOf(docMap, contents, tombstones, OwnerAt(contents, s, i + 1)))
            && (d.docID in docMap ==> docMap[d.docID].segIdx < s)
            && (d.docID !in tombstones ==> MapOf(docMap[d.docID := DocMeta(d.len, s)], contents, tombstones, OwnerAt(contents, s, i + 1)))
  {
    var d := contents[s][i];
    forall id ensures Owner(contents, id, s, i + 1) == if id == d.docID then s else Owner(contents, id, s, i) {
      if id == d.docID { assert HasIDUpTo(contents[s], id, i + 1); }
    }
    assert !HasIDUpTo(contents[s], d.docID, i);
    if d.docID !in tombstones {
      var docMap' := docMap[d.docID := DocMeta(d.len, s)];
      assert Entry(docMap'[d.docID], contents, d.docID);
      forall id | id in docMap' ensures docMap'[id].segIdx == Owner(contents, id, s, i + 1) && Entry(docMap'[id], contents, id) {
        if id != d.docID { assert id in docMap; }
      }
    }
  }

  // ----- what is to be written

  /** The version each surviving document keeps. */
  ghost predicate TruthOf(truth: map<gostring, Doc>, docMap: map<gostring, DocMeta>, contents: seq<seq<Doc>>) {
    && truth.Keys == docMap.Keys
    && forall id :: id in truth ==> docMap[id].segIdx < |contents| && truth[id].docID == id && truth[id].len == docMap[id].docLen
                                    && truth[id] in contents[docMap[id].segIdx]
  }

  /** The owner's document of id with the recorded length. */
  ghost function Chosen(meta: DocMeta, contents: seq<seq<Doc>>, id: gostring): (d: Doc)
    requires Entry(meta, contents, id)
    ensures meta.segIdx < |contents| && d in contents[meta.segIdx] && d.docID == id && d.len == meta.docLen
  {
    var i :| 0 <= i < |contents[meta.segIdx]| && contents[meta.segIdx][i].docID == id && contents[meta.segIdx][i].len == meta.docLen;
    contents[meta.segIdx][i]
  }

  lemma MakeTruth(docMap: map<gostring, DocMeta>, contents: seq<seq<Doc>>, tombstones: set<gostring>, owner: gostring -> int)
    returns (truth: map<gostring, Doc>)
    requires MapOf(docMap, contents, tombstones, owner)
    ensures TruthOf(truth, docMap, contents)
  {
    hide Entry, Chosen;
    truth := map id | id in docMap :: Chosen(docMap[id], contents, id);
  }

  /** The postings written so far of a document. */
  ghost function Partial(d: Doc, done: set<(gostring, gostring)>): Doc {
    Doc(d.docID, map t | t in d.tfs && (t, d.docID) in done :: d.tfs[t], d.len)
  }

  /** The builder holds each surviving document once, with what was written of it. */
  ghost predicate Written(docs: seq<Doc>, truth: map<gostring, Doc>, done: set<(gostring, gostring)>) {
    && DistinctIDs(docs)
    && (forall i :: 0 <= i < |docs| ==> docs[i].docID in truth && docs[i] == Partial(truth[docs[i].docID], done))
    && (forall id :: id in truth ==> HasID(docs, id) && truth[id].docID == id)
    && (forall t, id :: (t, id) in done ==> id in truth && t in truth[id].tfs)
  }

  // ----- phase 2: registering

  method RegisterAll(docMap: map<gostring, DocMeta>, ghost truth: map<gostring, Doc>, ghost contents: seq<seq<Doc>>) returns (b: IndexBuilder)
    requires TruthOf(truth, docMap, contents) && |docMap| < 0xFFFF_FFFF
    ensures fresh(b) && b.Valid() && Written(b.docs, truth, {}) && b.termList == []
  {
    hide IndexBuilder.Valid, HasID;
    b := new IndexBuilder();
    var rest := docMap.Keys;
    ghost var todo := docMap.Keys;
    while rest != {}
      invariant fresh(b) && b.Valid() && b.termList == [] && rest <= docMap.Keys
      invariant |b.docs| + |rest| == |docMap.Keys|
      invariant Registering(b.docs, truth, rest)
      decreases |rest|
    {
      var id :| id in rest;
      RegisterOne(b.docs, truth, rest, id);
      b.PreRegisterDoc(id, docMap[id].docLen);
      rest := rest - {id};
    }
    Registered(b.docs, truth);
  }

  /** Exactly the documents not in rest are registered, without postings. */
  ghost predicate Registering(docs: seq<Doc>, truth: map<gostring, Doc>, rest: set<gostring>) {
    && DistinctIDs(docs)
    && (forall i :: 0 <= i < |docs| ==> docs[i].docID in truth && docs[i].docID !in rest
                                        && docs[i].tfs == map[] && docs[i].len == truth[docs[i].docID].len)
    && (forall id :: id in truth && id !in rest ==> HasID(docs, id))
  }

  lemma RegisterOne(docs: seq<Doc>, truth: map<gostring, Doc>, rest: set<gostring>, id: gostring)
    requires Registering(docs, truth, rest) && id in rest && id in truth
    ensures Registering(docs + [Doc(id, map[], truth[id].len)], truth, rest - {id})
  {
    var docs' := docs + [Doc(id, map[], truth[id].len)];
    forall x | x in truth && x !in rest - {id} ensures HasID(docs', x) {
      if x == id {
        assert docs'[|docs|].docID == id;
      } else {
        var i :| 0 <= i < |docs| && docs[i].docID == x;
        assert docs'[i].docID == x;
      }
    }
  }

  lemma Registered(docs: seq<Doc>, truth: map<gostring, Doc>)
    requires Registering(docs, truth, {}) && forall id :: id in truth ==> truth[id].docID == id
    ensures Written(docs, truth, {})
  {
    hide HasID;
  }

  // ----- phase 3: one posting, one term of one segment

  method WriteOne(b: IndexBuilder, term: gostring, id: gostring, tf: nat, ghost truth: map<gostring, Doc>, ghost done: set<(gostring, gostring)>)
    requires b.Valid() && Written(b.docs, truth, done) && tf < 0x1_0000_0000
    requires term !in b.termList ==> |b.termList| + 1 < 0x1_0000_0000
    requires id in truth && term in truth[id].tfs && tf == truth[id].tfs[term] && (term, id) !in done
    modifies b
    ensures b.Valid() && Written(b.docs, truth, done + {(term, id)})
    ensures b.termList == if term in old(b.termList) then old(b.termList) else old(b.termList) + [term]
  {
    hide IndexBuilder.Valid, HasID;
    b.SlotOf(id);
    b.TermKnown(term);
    KnownSlot(b.docs, truth, done, id);
    ghost var slot := b.docToID[id];
    ghost var before := b.docs;
    b.WritePosting(term, id, tf);
    WrittenOne(before, truth, done, slot, term, id);
  }

  lemma KnownSlot(docs: seq<Doc>, truth: map<gostring, Doc>, done: set<(gostring, gostring)>, id: gostring)
    requires Written(docs, truth, done) && id in truth
    ensures exists i :: 0 <= i < |docs| && docs[i].docID == id
  {
  }

  lemma OnlySlot(docs: seq<Doc>, slot: nat)
    requires DistinctIDs(docs) && slot < |docs|
    ensures forall j :: 0 <= j < |docs| && j != slot ==> docs[j].docID != docs[slot].docID
  {
  }

  lemma WrittenOne(docs: seq<Doc>, truth: map<gostring, Doc>, done: set<(gostring, gostring)>, slot: nat, term: gostring, id: gostring)
    requires Written(docs, truth, done) && slot < |docs| && docs[slot].docID == id
    requires id in truth && term in truth[id].tfs
    ensures Written(docs[slot := docs[slot].(tfs := docs[slot].tfs[term := truth[id].tfs[term]])], truth, done + {(term, id)})
  {
    hide HasID, DistinctIDs;
    assert forall j :: 0 <= j < |docs| && j != slot ==> docs[j].docID != id by { OnlySlot(docs, slot); }
    var done' := done + {(term, id)};
    var docs' := docs[slot := docs[slot].(tfs := docs[slot].tfs[term := truth[id].tfs[term]])];
    forall i | 0 <= i < |docs'| ensures docs'[i] == Partial(truth[docs'[i].docID], done') {
      var d := truth[docs[i].docID];
      if i == slot {
        assert docs'[i].tfs == Partial(d, done').tfs;
      } else {
        assert docs[i].docID != id;
        assert Partial(d, done').tfs == Partial(d, done).tfs;
      }
    }
    SameIDsHeld(docs, docs');
  }

  lemma SameIDsHeld(docs: seq<Doc>, docs': seq<Doc>)
    requires |docs'| == |docs| && forall i :: 0 <= i < |docs| ==> docs'[i].docID == docs[i].docID
    ensures forall x :: HasID(docs, x) ==> HasID(docs', x)
    ensures DistinctIDs(docs) ==> DistinctIDs(docs')
  {
    forall x | HasID(docs, x) ensures HasID(docs', x) {
      var i :| 0 <= i < |docs| && docs[i].docID == x;
      assert docs'[i].docID == x;
    }
  }
}
