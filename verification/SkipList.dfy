/**
 The two-level skip list over a posting list's full blocks
 (internal/index/skiplist.go). Block impacts are reals.
 */
module SkipList {
  import opened Options
  import opened PostingFormat

  const L1_STRIDE: nat := 32

  datatype SkipList = SkipList(
    l0DocIDs: seq<nat>,
    l0Offsets: seq<nat>,
    l0Bases: seq<nat>,
    l0Impact: seq<real>,
    l1DocIDs: seq<nat>,
    l1L0Idx: seq<nat>)

  /** The first index at or after from whose entry is at least target, or |docs|. */
  function FirstFrom(docs: seq<nat>, from: nat, target: nat): (i: nat)
    requires from <= |docs|
    ensures from <= i <= |docs|
    ensures forall k :: from <= k < i ==> docs[k] < target
    ensures i < |docs| ==> docs[i] >= target
    decreases |docs| - from
  {
    if from == |docs| || docs[from] >= target then from else FirstFrom(docs, from + 1, target)
  }

  ghost predicate Increasing(docs: seq<nat>) {
    forall i, j :: 0 <= i < j < |docs| ==> docs[i] < docs[j]
  }

  /** L1 entry j covers L0 entries 32*j, ..., 32*j + 31 and holds the last of their documents. */
  ghost predicate Shaped(sl: SkipList) {
    && |sl.l0DocIDs| == |sl.l0Offsets| == |sl.l0Bases| == |sl.l0Impact|
    && |sl.l1DocIDs| == |sl.l1L0Idx| == (|sl.l0DocIDs| + L1_STRIDE - 1) / L1_STRIDE
    && (forall j :: 0 <= j < |sl.l1L0Idx| ==> sl.l1L0Idx[j] == L1_STRIDE * j)
    && (forall j :: 0 <= j < |sl.l1DocIDs| ==> sl.l1DocIDs[j] == sl.l0DocIDs[LastCovered(|sl.l0DocIDs|, j)])
  }

  /** One L1 entry for every 32 L0 entries or part of them, with the last document of these. */
  lemma L1Samples(sl: SkipList, j: nat)
    requires Shaped(sl)
    ensures |sl.l1DocIDs| == |sl.l1L0Idx| == (|sl.l0DocIDs| + 31) / 32
    ensures j < |sl.l1DocIDs| ==>
              sl.l1L0Idx[j] == 32 * j
              && sl.l1DocIDs[j] == if 32 * j + 31 < |sl.l0DocIDs| then sl.l0DocIDs[32 * j + 31] else sl.l0DocIDs[|sl.l0DocIDs| - 1]
  {
    hide Shaped;
    if j < |sl.l1DocIDs| { SampleAt(sl, j); }
    SampleSizes(sl);
  }

  lemma SampleSizes(sl: SkipList)
    requires Shaped(sl)
    ensures |sl.l1DocIDs| == |sl.l1L0Idx| == (|sl.l0DocIDs| + 31) / 32
  {
  }

  lemma SampleAt(sl: SkipList, j: nat)
    requires Shaped(sl) && j < |sl.l1DocIDs|
    ensures j < |sl.l1L0Idx| && sl.l1L0Idx[j] == 32 * j < |sl.l0DocIDs|
    ensures sl.l1DocIDs[j] == if 32 * j + 31 < |sl.l0DocIDs| then sl.l0DocIDs[32 * j + 31] else sl.l0DocIDs[|sl.l0DocIDs| - 1]
  {
  }

  ghost predicate WellBuilt(sl: SkipList) {
    Shaped(sl) && Increasing(sl.l0DocIDs)
  }

  /** L1 is determined by L0. */
  lemma SameShape(a: SkipList, b: SkipList)
    requires Shaped(a) && Shaped(b)
    requires a.l0DocIDs == b.l0DocIDs && a.l0Offsets == b.l0Offsets && a.l0Bases == b.l0Bases
    requires forall i :: 0 <= i < |a.l0Impact| && i < |b.l0Impact| ==> a.l0Impact[i] == b.l0Impact[i]
    ensures a == b
  {
    assert a.l0Impact == b.l0Impact;
    assert a.l1L0Idx == b.l1L0Idx && a.l1DocIDs == b.l1DocIDs;
  }

  function LastCovered(n: nat, j: nat): (k: nat)
    requires L1_STRIDE * j < n
    ensures L1_STRIDE * j <= k < n
  {
    if L1_STRIDE * j + 31 >= n then n - 1 else L1_STRIDE * j + 31
  }

  method BuildSkipList(l0DocIDs: seq<nat>, l0Offsets: seq<nat>, l0Bases: seq<nat>, l0Impact: seq<real>)
    returns (sl: SkipList)
    requires |l0DocIDs| == |l0Offsets| == |l0Bases| == |l0Impact|
    ensures Shaped(sl)
    ensures sl.l0DocIDs == l0DocIDs && sl.l0Offsets == l0Offsets && sl.l0Bases == l0Bases && sl.l0Impact == l0Impact
  {
    var l1DocIDs, l1L0Idx := [], [];
    var i := 0;
    while i < |l0DocIDs|
      invariant i == L1_STRIDE * |l1DocIDs| && |l1L0Idx| == |l1DocIDs| <= (|l0DocIDs| + 31) / L1_STRIDE
      invariant forall j :: 0 <= j < |l1L0Idx| ==> l1L0Idx[j] == L1_STRIDE * j
      invariant forall j :: 0 <= j < |l1DocIDs| ==>
                  L1_STRIDE * j < |l0DocIDs| && l1DocIDs[j] == l0DocIDs[LastCovered(|l0DocIDs|, j)]
    {
      var end := i + L1_STRIDE - 1;
      if end >= |l0DocIDs| {
        end := |l0DocIDs| - 1;
      }
      l1DocIDs := l1DocIDs + [l0DocIDs[end]];
      l1L0Idx := l1L0Idx + [i];
      i := i + L1_STRIDE;
    }
    sl := SkipList(l0DocIDs, l0Offsets, l0Bases, l0Impact, l1DocIDs, l1L0Idx);
  }

  /** Lower bound in L1: the first entry that reaches target. */
  method SearchL1(sl: SkipList, target: nat) returns (lo: nat)
    requires WellBuilt(sl)
    ensures lo <= |sl.l1DocIDs|
    ensures forall j :: 0 <= j < lo ==> sl.l1DocIDs[j] < target
    ensures lo < |sl.l1DocIDs| ==> sl.l1DocIDs[lo] >= target
  {
    lo := 0;
    var hi := |sl.l1DocIDs|;
    assert forall i, j :: 0 <= i < j < |sl.l1DocIDs| ==> sl.l1DocIDs[i] < sl.l1DocIDs[j];
    while lo < hi
      invariant 0 <= lo <= hi <= |sl.l1DocIDs|
      invariant forall j :: 0 <= j < lo ==> sl.l1DocIDs[j] < target
      invariant forall j :: hi <= j < |sl.l1DocIDs| ==> sl.l1DocIDs[j] >= target
    {
      var mid := (lo + hi) / 2;
      if sl.l1DocIDs[mid] < target {
        lo := mid + 1;
      } else {
        hi := mid;
      }
    }
  }

  /** The L1 bucket found holds the first block that reaches target. */
  lemma BucketHolds(sl: SkipList, target: nat, lo: nat)
    requires WellBuilt(sl) && lo <= |sl.l1DocIDs|
    requires forall j :: 0 <= j < lo ==> sl.l1DocIDs[j] < target
    requires lo < |sl.l1DocIDs| ==> sl.l1DocIDs[lo] >= target
    ensures var first := FirstFrom(sl.l0DocIDs, 0, target);
            if lo == |sl.l1DocIDs| then first == |sl.l0DocIDs|
            else L1_STRIDE * lo <= first <= LastCovered(|sl.l0DocIDs|, lo)
  {
    var n := |sl.l0DocIDs|;
    if lo > 0 {
      var last := LastCovered(n, lo - 1);
      assert sl.l1DocIDs[lo - 1] == sl.l0DocIDs[last] < target;
      assert forall k :: 0 <= k <= last ==> sl.l0DocIDs[k] < target;
    }
  }

  /** The first block whose last document reaches target, or (0, 0, 0). */
  method SkipTo(sl: SkipList, target: nat) returns (offset: nat, base: nat, blockIdx: nat)
    requires WellBuilt(sl)
    ensures var b := FirstFrom(sl.l0DocIDs, 0, target);
            if b < |sl.l0DocIDs| then offset == sl.l0Offsets[b] && base == sl.l0Bases[b] && blockIdx == b
            else offset == 0 && base == 0 && blockIdx == 0
  {
    if |sl.l0DocIDs| == 0 {
      return 0, 0, 0;
    }
    var lo := SearchL1(sl, target);
    BucketHolds(sl, target, lo);
    if lo >= |sl.l1DocIDs| {
      return 0, 0, 0;
    }
    var l0End := sl.l1L0Idx[lo] + L1_STRIDE;
    if l0End > |sl.l0DocIDs| {
      l0End := |sl.l0DocIDs|;
    }
    for i := sl.l1L0Idx[lo] to l0End
      invariant i <= FirstFrom(sl.l0DocIDs, 0, target)
    {
      if sl.l0DocIDs[i] >= target {
        return sl.l0Offsets[i], sl.l0Bases[i], i;
      }
    }
    assert false;
  }

  /** The block that would hold target; None past the last full block or without a list. */
  method BlockFor(skip: Option<SkipList>, target: nat) returns (blockIdx: nat, ok: bool)
    requires skip.Some? ==> WellBuilt(skip.value)
    ensures skip.None? ==> !ok
    ensures skip.Some? ==>
              var b := FirstFrom(skip.value.l0DocIDs, 0, target);
              ok == (b < |skip.value.l0DocIDs|) && (ok ==> blockIdx == b)
  {
    if skip.None? || |skip.value.l0DocIDs| == 0 {
      return 0, false;
    }
    var sl := skip.value;
    var lo := SearchL1(sl, target);
    BucketHolds(sl, target, lo);
    if lo >= |sl.l1DocIDs| {
      return 0, false;
    }
    var l0End := sl.l1L0Idx[lo] + L1_STRIDE;
    if l0End > |sl.l0DocIDs| {
      l0End := |sl.l0DocIDs|;
    }
    for i := sl.l1L0Idx[lo] to l0End
      invariant i <= FirstFrom(sl.l0DocIDs, 0, target)
    {
      if sl.l0DocIDs[i] >= target {
        return i, true;
      }
    }
    assert false;
  }

  /** The stored maximum impact of a block; 0 when there is none. */
  function BlockMaxImpact(skip: Option<SkipList>, blockIdx: int): real {
    if skip.None? || blockIdx < 0 || blockIdx >= |skip.value.l0Impact| then 0.0 else skip.value.l0Impact[blockIdx]
  }

  function LastDocIDInBlock(skip: Option<SkipList>, blockIdx: int): Option<nat> {
    if skip.None? || blockIdx < 0 || blockIdx >= |skip.value.l0DocIDs| then None else Some(skip.value.l0DocIDs[blockIdx])
  }

  /** sl describes the full blocks of ps: last document, byte offset and delta base of each. */
  ghost predicate Describes(sl: SkipList, ps: seq<Posting>)
    requires ValidList(ps)
  {
    && WellBuilt(sl) && |sl.l0DocIDs| == FullBlocks(ps)
    && forall b {:trigger sl.l0DocIDs[b]} {:trigger sl.l0Offsets[b]} {:trigger sl.l0Bases[b]} :: 0 <= b < FullBlocks(ps) ==>
         sl.l0DocIDs[b] == ps[128 * b + 127].doc && sl.l0Offsets[b] == Offset(ps, b) && sl.l0Bases[b] == Base(ps, 128 * b)
  }

  /** With a skip list of ps, the first block reaching target is where the list passes target. */
  lemma FirstBlock(sl: SkipList, ps: seq<Posting>, target: nat)
    requires ValidList(ps) && Describes(sl, ps)
    ensures var b := FirstFrom(sl.l0DocIDs, 0, target);
            (forall i :: 0 <= i < 128 * b ==> ps[i].doc < target)
            && (b < FullBlocks(ps) ==> ps[128 * b + 127].doc >= target)
  {
    hide WellBuilt, Blocks, Offset, Base, FirstFrom;
    var b := FirstFrom(sl.l0DocIDs, 0, target);
    if b > 0 {
      assert sl.l0DocIDs[b - 1] == ps[128 * (b - 1) + 127].doc < target;
    }
  }
}
