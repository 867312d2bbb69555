/** Dropping superseded slots at build time (internal/index/builder.go). */
module Compaction {
  import opened Bits
  import opened RadixSort
  import opened BuiltIndex
  import opened BuilderTables
  import opened IndexedDocs

  ghost predicate TableOf(docs: seq<Doc>, docList: seq<gostring>, docLens: seq<nat>) {
    |docList| == |docLens| == |docs| && forall i :: 0 <= i < |docs| ==> docList[i] == docs[i].docID && docLens[i] == docs[i].len
  }

  /** New numbers for the live slots, cut to an int32, -1 for the others, and the tables that go with them. */
  method Renumber(docList: seq<gostring>, docLens: seq<nat>, docLive: seq<bool>, ghost docs: seq<Doc>)
    returns (finalID: seq<int>, liveDocList: seq<gostring>, liveDocLens: seq<nat>)
    requires Slots(docs, docList, docLens, docLive)
    ensures |finalID| == |docs|
    ensures forall i :: 0 <= i < |docs| ==> finalID[i] == if IsLast(docs, i) then Int32(|Selected(docs, i)|) else -1
    ensures TableOf(LastVersions(docs), liveDocList, liveDocLens)
  {
    hide IsLast, Selected;
    finalID, liveDocList, liveDocLens := [], [], [];
    NoneSelected(docs);
    for i := 0 to |docLive|
      invariant |finalID| == i && TableOf(Selected(docs, i), liveDocList, liveDocLens)
      invariant forall j :: 0 <= j < i ==> finalID[j] == if IsLast(docs, j) then Int32(|Selected(docs, j)|) else -1
    {
      SelectedStep(docs, i);
      if !docLive[i] {
        finalID := finalID + [-1];
        continue;
      }
      finalID := finalID + [Int32(|liveDocList|)];
      liveDocList := liveDocList + [docList[i]];
      liveDocLens := liveDocLens + [docLens[i]];
    }
  }

  lemma NoneSelected(docs: seq<Doc>)
    ensures Selected(docs, 0) == []
  {
  }

  lemma SelectedStep(docs: seq<Doc>, i: nat)
    requires i < |docs|
    ensures Selected(docs, i + 1) == Selected(docs, i) + if IsLast(docs, i) then [docs[i]] else []
  {
  }

  /** A last version whose new number fits an int32: its records are kept. */
  ghost predicate Numbered(docs: seq<Doc>, d: nat)
    requires d < |docs|
  {
    IsLast(docs, d) && |Selected(docs, d)| < INT32_LIMIT
  }

  /** The records of numbered versions among the first n, with their documents renumbered. */
  ghost function Moved(postings: seq<RawPosting>, docs: seq<Doc>, n: nat): (s: seq<RawPosting>)
    requires n <= |postings| && |docs| < 0x1_0000_0000
    requires forall i :: 0 <= i < |postings| ==> postings[i].docID < |docs|
    ensures |s| <= n
  {
    if n == 0 then [] else
      Moved(postings, docs, n - 1)
      + if Numbered(docs, postings[n - 1].docID) then [NewRecord(postings[n - 1], docs)] else []
  }

  ghost function NewRecord(p: RawPosting, docs: seq<Doc>): RawPosting
    requires p.docID < |docs| < 0x1_0000_0000
  {
    RawPosting(p.termID, |Selected(docs, p.docID)|, p.tf)
  }

  method Filter(postings: seq<RawPosting>, finalID: seq<int>, ghost docs: seq<Doc>, ghost termList: seq<gostring>)
    returns (kept: seq<RawPosting>)
    requires Recorded(postings, docs, termList) && |docs| < 0x1_0000_0000 && |finalID| == |docs|
    requires forall i :: 0 <= i < |docs| ==> finalID[i] == if IsLast(docs, i) then Int32(|Selected(docs, i)|) else -1
    ensures Recorded(kept, Cut(LastVersions(docs)), termList)
  {
    hide HasRecord, IsLast, Selected;
    assert forall i :: 0 <= i < |postings| ==> Sound(postings[i], docs, termList);
    kept := [];
    for i := 0 to |postings|
      invariant kept == Moved(postings, docs, i)
    {
      var p := postings[i];
      var fid := finalID[p.docID];
      if fid >= 0 {
        kept := kept + [RawPosting(p.termID, fid, p.tf)];
      }
    }
    MovedRecorded(postings, docs, termList);
  }

  lemma {:induction false} MovedPrefix(postings: seq<RawPosting>, docs: seq<Doc>, m: nat, n: nat)
    requires m <= n <= |postings| && |docs| < 0x1_0000_0000
    requires forall i :: 0 <= i < |postings| ==> postings[i].docID < |docs|
    ensures Moved(postings, docs, m) <= Moved(postings, docs, n)
  {
    hide Numbered, NewRecord;
    if m < n { MovedPrefix(postings, docs, m, n - 1); }
  }

  lemma {:induction false} MovedFrom(postings: seq<RawPosting>, docs: seq<Doc>, n: nat, k: nat) returns (i: nat)
    requires n <= |postings| && |docs| < 0x1_0000_0000
    requires forall i :: 0 <= i < |postings| ==> postings[i].docID < |docs|
    requires k < |Moved(postings, docs, n)|
    ensures i < n && Numbered(docs, postings[i].docID) && |Moved(postings, docs, i)| == k
    ensures Moved(postings, docs, n)[k] == NewRecord(postings[i], docs)
  {
    hide Numbered, NewRecord;
    if k < |Moved(postings, docs, n - 1)| {
      i := MovedFrom(postings, docs, n - 1, k);
    } else {
      i := n - 1;
    }
  }

  lemma MovedAt(postings: seq<RawPosting>, docs: seq<Doc>, i: nat)
    requires |docs| < 0x1_0000_0000 && i < |postings|
    requires forall i :: 0 <= i < |postings| ==> postings[i].docID < |docs|
    requires Numbered(docs, postings[i].docID)
    ensures NewRecord(postings[i], docs) in Moved(postings, docs, |postings|)
  {
    hide *;
    var next := i + 1;
    MovedStep(postings, docs, i);
    MovedPrefix(postings, docs, next, |postings|);
    assert Moved(postings, docs, next)[|Moved(postings, docs, i)|] == NewRecord(postings[i], docs);
    assert Moved(postings, docs, |postings|)[|Moved(postings, docs, i)|] == NewRecord(postings[i], docs);
  }

  lemma MovedStep(postings: seq<RawPosting>, docs: seq<Doc>, i: nat)
    requires |docs| < 0x1_0000_0000 && i < |postings|
    requires forall i :: 0 <= i < |postings| ==> postings[i].docID < |docs|
    requires Numbered(docs, postings[i].docID)
    ensures Moved(postings, docs, i + 1) == Moved(postings, docs, i) + [NewRecord(postings[i], docs)]
  {
    hide Numbered, NewRecord;
  }

  /** Live slots get different numbers. */
  lemma NumbersDiffer(docs: seq<Doc>, a: nat, b: nat)
    requires a < |docs| && b < |docs| && IsLast(docs, a) && IsLast(docs, b) && a != b
    ensures |Selected(docs, a)| != |Selected(docs, b)|
  {
    hide IsLast;
    var lo, hi := if a < b then a else b, if a < b then b else a;
    var next := lo + 1;
    SelectedPrefix(docs, next, hi);
  }

  lemma MovedRecorded(postings: seq<RawPosting>, docs: seq<Doc>, termList: seq<gostring>)
    requires Recorded(postings, docs, termList) && |docs| < 0x1_0000_0000
    ensures forall i :: 0 <= i < |postings| ==> postings[i].docID < |docs|
    ensures Recorded(Moved(postings, docs, |postings|), Cut(LastVersions(docs)), termList)
  {
    hide HasRecord, IsLast, Selected;
    assert forall i :: 0 <= i < |postings| ==> Sound(postings[i], docs, termList);
    var kept, lv := Moved(postings, docs, |postings|), Cut(LastVersions(docs));
    forall k | 0 <= k < |kept| ensures Sound(kept[k], lv, termList) {
      var i := MovedFrom(postings, docs, |postings|, k);
      SelectedAt(docs, postings[i].docID);
    }
    forall a, b | 0 <= a < b < |kept| ensures kept[a] != kept[b] {
      MovedDiffer(postings, docs, termList, a, b);
    }
    forall e, t | 0 <= e < |lv| && t in lv[e].tfs ensures HasRecord(kept, lv, termList, e, t) {
      MovedHas(postings, docs, termList, e, t);
    }
  }

  lemma MovedDiffer(postings: seq<RawPosting>, docs: seq<Doc>, termList: seq<gostring>, a: nat, b: nat)
    requires Recorded(postings, docs, termList) && |docs| < 0x1_0000_0000
    requires forall i :: 0 <= i < |postings| ==> postings[i].docID < |docs|
    requires a < b < |Moved(postings, docs, |postings|)|
    ensures Moved(postings, docs, |postings|)[a] != Moved(postings, docs, |postings|)[b]
  {
    hide HasRecord, IsLast, Selected;
    var i := MovedFrom(postings, docs, |postings|, a);
    var j := MovedFrom(postings, docs, |postings|, b);
    if postings[i].docID != postings[j].docID {
      NumbersDiffer(docs, postings[i].docID, postings[j].docID);
    } else if i != j {
      assert postings[i] != postings[j];
    }
  }

  lemma MovedHas(postings: seq<RawPosting>, docs: seq<Doc>, termList: seq<gostring>, e: nat, t: gostring)
    requires Recorded(postings, docs, termList) && |docs| < 0x1_0000_0000
    requires forall i :: 0 <= i < |postings| ==> postings[i].docID < |docs|
    requires e < |LastVersions(docs)| && t in Cut(LastVersions(docs))[e].tfs
    ensures HasRecord(Moved(postings, docs, |postings|), Cut(LastVersions(docs)), termList, e, t)
  {
    hide IsLast, Selected;
    var d := SelectedFrom(docs, |docs|, e);
    assert HasRecord(postings, docs, termList, d, t);
    var i :| 0 <= i < |postings| && postings[i].docID == d && postings[i].termID < |termList|
             && termList[postings[i].termID] == t && postings[i].tf == docs[d].tfs[t];
    MovedAt(postings, docs, i);
  }
}
