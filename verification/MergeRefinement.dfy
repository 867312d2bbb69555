/**
 The shard's view of a merge (internal/shard/merge.go) is what the k-way merge of
 the segments does (internal/segment/merge.go).
 */
module MergeRefinement {
  import opened Options
  import opened Bits
  import opened BuiltIndex
  import opened SegmentContents
  import opened SegmentMerge
  import opened MergeLoop
  import opened Merging
  import opened ShardModel
  import opened ShardSequence
  import opened ShardMerge

  /** rec is the shard's record of a segment of docs, each document's terms and length coded as one content. */
  ghost predicate Records(rec: SegRec, docs: seq<Doc>, code: Doc -> Content) {
    && DistinctIDs(docs)
    && (forall id :: id in rec.docs <==> HasID(docs, id))
    && forall d :: d in docs ==> d.docID in rec.docs && rec.docs[d.docID] == code(d)
  }

  ghost predicate AllRecord(ins: seq<SegRec>, contents: seq<seq<Doc>>, code: Doc -> Content) {
    |ins| == |contents| && forall i :: 0 <= i < |ins| ==> Records(ins[i], contents[i], code)
  }

  ghost predicate Ascending(ins: seq<SegRec>) {
    forall i, j :: 0 <= i < j < |ins| ==> ins[i].flushSeq < ins[j].flushSeq
  }

  /** A surviving version comes from the newest record of its document. */
  lemma SurvivorIsNewest(ins: seq<SegRec>, contents: seq<seq<Doc>>, tombstones: set<gostring>, code: Doc -> Content, d: Doc)
    requires AllRecord(ins, contents, code) && Ascending(ins) && Survives(contents, tombstones, d)
    ensures d.docID in MergedDocs(ins, tombstones) && MergedDocs(ins, tombstones)[d.docID] == code(d)
  {
    hide HasID, Newest, MergedDocs, DistinctIDs;
    var s :| 0 <= s < |contents| && d in contents[s] && forall k :: s < k < |contents| ==> !HasID(contents[k], d.docID);
    assert Records(ins[s], contents[s], code);
    forall y | y in ins && d.docID in y.docs ensures y.flushSeq <= ins[s].flushSeq {
      var k :| 0 <= k < |ins| && ins[k] == y;
      assert Records(ins[k], contents[k], code);
    }
    assert DistinctSeqs(ins);
    NewestIs(ins, d.docID, ins[s]);
    OutputDocs(ins, tombstones, d.docID);
  }

  /** Every document of the merged record has a surviving version. */
  lemma MergedSurvives(ins: seq<SegRec>, contents: seq<seq<Doc>>, tombstones: set<gostring>, code: Doc -> Content, id: gostring)
    requires AllRecord(ins, contents, code) && Ascending(ins) && id in MergedDocs(ins, tombstones)
    ensures exists d: Doc :: d.docID == id && Survives(contents, tombstones, d)
  {
    hide Newest, MergedDocs, DistinctIDs;
    OutputDocs(ins, tombstones, id);
    NewestFacts(ins, id);
    var x := Newest(ins, id).value;
    var s :| 0 <= s < |ins| && ins[s] == x;
    assert Records(ins[s], contents[s], code);
    var i :| 0 <= i < |contents[s]| && contents[s][i].docID == id;
    var d := contents[s][i];
    forall k | s < k < |contents| ensures !HasID(contents[k], id) {
      assert Records(ins[k], contents[k], code);
      assert ins[k] in ins && ins[s].flushSeq < ins[k].flushSeq;
    }
    assert d in contents[s] && Survives(contents, tombstones, d);
  }

  /** So the merged record is the shard's record of what the merge keeps. */
  lemma MergeRefines(ins: seq<SegRec>, contents: seq<seq<Doc>>, tombstones: set<gostring>, code: Doc -> Content, merged: seq<Doc>)
    requires AllRecord(ins, contents, code) && Ascending(ins) && DistinctIDs(merged)
    requires forall d :: d in merged <==> Survives(contents, tombstones, d)
    ensures Records(SegRec(MaxFlushSeq(ins), MergedDocs(ins, tombstones)), merged, code)
  {
    hide AllRecord, Survives, MergedDocs, MaxFlushSeq, DistinctIDs;
    var out := MergedDocs(ins, tombstones);
    forall d | d in merged ensures d.docID in out && out[d.docID] == code(d) {
      SurvivorIsNewest(ins, contents, tombstones, code, d);
    }
    forall id ensures id in out <==> HasID(merged, id) {
      if id in out {
        MergedSurvives(ins, contents, tombstones, code, id);
        var d: Doc :| d.docID == id && Survives(contents, tombstones, d);
        var i :| 0 <= i < |merged| && merged[i] == d;
      }
      if HasID(merged, id) {
        var i :| 0 <= i < |merged| && merged[i].docID == id;
        assert merged[i] in merged;
      }
    }
  }

  /** The order in which the manifest lists the inputs does not matter. */
  lemma OrderIrrelevant(a: seq<SegRec>, b: seq<SegRec>, tombstones: set<gostring>)
    requires DistinctSeqs(a) && DistinctSeqs(b) && forall x :: x in a <==> x in b
    ensures MergedDocs(a, tombstones) == MergedDocs(b, tombstones) && MaxFlushSeq(a) == MaxFlushSeq(b)
  {
    hide Newest, MergedDocs, DistinctSeqs, MaxFlushSeq;
    MaxWithin(a, b);
    MaxWithin(b, a);
    forall id ensures Newest(a, id) == Newest(b, id) {
      NewestFacts(a, id);
      NewestFacts(b, id);
      if Newest(a, id).Some? { NewestIs(b, id, Newest(a, id).value); }
    }
    var x, y := MergedDocs(a, tombstones), MergedDocs(b, tombstones);
    forall id ensures id in x <==> id in y {
      OutputDocs(a, tombstones, id);
      OutputDocs(b, tombstones, id);
    }
    forall id | id in x ensures x[id] == y[id] {
      OutputDocs(a, tombstones, id);
      OutputDocs(b, tombstones, id);
    }
  }

  /** The k-way merge of ordered inputs, none of which the shard's records misstate, writes the segment the shard records. */
  method MergeInputs(ins: seq<SegRec>, segments: seq<Segment>, tombstones: set<gostring>, k: BuildScoring, ghost contents: seq<seq<Doc>>, ghost code: Doc -> Content)
    returns (out: Option<Segment>, ghost merged: seq<Doc>)
    requires AllHold(segments, contents) && AllRecord(ins, contents, code) && Ascending(ins)
    requires TotalDocs(contents, |contents|) < 0xFFFF_FFFF && TotalTerms(segments, |segments|) < 0x1_0000_0000
    ensures out.None? <==> ins == []
    ensures out.Some? ==> SegmentHolds(out.value, merged) && Records(SegRec(MaxFlushSeq(ins), MergedDocs(ins, tombstones)), merged, code)
  {
    hide SegmentHolds, Survives, MergedDocs, Records, MaxFlushSeq, TotalDocs, TotalTerms;
    ghost var consumed;
    out, merged, consumed := MergeSegments(segments, tombstones, k, contents);
    if out.Some? {
      HeldDistinct(out.value, merged);
      MergeRefines(ins, contents, tombstones, code, merged);
    }
  }

  lemma HeldDistinct(seg: Segment, docs: seq<Doc>)
    requires SegmentHolds(seg, docs)
    ensures DistinctIDs(docs)
  {
  }
}
