/**
 Why MaxScore may pass documents without scoring them: the run invariant of the
 search loop and the steps that keep it. f is the frontier; every document up to
 f has been passed.
 */
module MaxScorePruning {
  import opened Options
  import opened PostingFormat
  import opened Skips = SkipList
  import opened Iter = PostingIter
  import opened MaxScoreModel
  import opened Heap = ScoreHeap

  // ----- iterators and the frontier

  /**
   A live iterator has left behind only documents up to the frontier; a dead
   one has no others. The shallow cursor has left only blocks that end there.
   */
  ghost predicate Tracks(it: PostingIter, alive: bool, f: int)
    reads it, it.docBuf, it.tfBuf
  {
    && it.Valid()
    && (alive ==> it.read > 0 && forall j :: 0 <= j < it.read - 1 ==> it.list[j].doc <= f)
    && (!alive ==> forall j :: 0 <= j < |it.list| ==> it.list[j].doc <= f)
    && (it.skip.Some? ==>
          it.shallowIdx <= |it.skip.value.l0DocIDs|
          && forall k :: 0 <= k < it.shallowIdx ==> it.skip.value.l0DocIDs[k] <= f)
  }

  /** A document past the frontier and before the current posting is not in the list. */
  lemma NotAhead(it: PostingIter, alive: bool, f: int, d: nat)
    requires Tracks(it, alive, f) && f < d && (alive ==> d < it.currDoc)
    ensures !InList(it.list, d)
  {
    hide EncodeList, Blocks, Offset, Describes, PostingIter.Loaded, PostingIter.Empty;
    forall j | 0 <= j < |it.list| ensures it.list[j].doc != d {
      assert alive && j >= it.read - 1 ==> it.list[j].doc >= it.currDoc;
    }
  }

  /** The block of the current posting holds every later document up to its last one. */
  lemma InCurrentBlock(it: PostingIter, f: int, d: nat)
    requires Tracks(it, true, f) && it.skip.Some? && 0 <= it.blockIdx < |it.skip.value.l0DocIDs|
    requires f < d <= it.skip.value.l0DocIDs[it.blockIdx]
    ensures it.blockIdx < FullBlocks(it.list)
    ensures forall j :: 0 <= j < |it.list| && it.list[j].doc == d ==> 128 * it.blockIdx <= j < 128 * it.blockIdx + 128
  {
    hide EncodeList, Blocks, Offset, PostingIter.Loaded, PostingIter.Empty, WellBuilt;
    var b := it.blockIdx;
    assert it.skip.value.l0DocIDs[b] == it.list[128 * b + 127].doc;
    forall j | 0 <= j < |it.list| && it.list[j].doc == d ensures 128 * b <= j < 128 * b + 128 {
      assert j >= it.read - 1;
    }
  }

  /** The first block that reaches c holds every document from c to its last one. */
  lemma InFirstBlock(sl: SkipList, ps: seq<Posting>, from: nat, c: nat, d: nat)
    requires ValidList(ps) && Describes(sl, ps) && from <= |sl.l0DocIDs|
    requires forall k :: 0 <= k < from ==> sl.l0DocIDs[k] < c
    requires var b := FirstFrom(sl.l0DocIDs, from, c); b < |sl.l0DocIDs| && c <= d <= sl.l0DocIDs[b]
    ensures var b := FirstFrom(sl.l0DocIDs, from, c);
            b < FullBlocks(ps)
            && forall j :: 0 <= j < |ps| && ps[j].doc == d ==> 128 * b <= j < 128 * b + 128
  {
    hide Blocks, Offset, WellBuilt, FirstFrom;
    var b := FirstFrom(sl.l0DocIDs, from, c);
    assert sl.l0DocIDs[b] == ps[128 * b + 127].doc;
    forall j | 0 <= j < |ps| && ps[j].doc == d ensures 128 * b <= j < 128 * b + 128 {
      assert b > 0 ==> sl.l0DocIDs[b - 1] == ps[128 * (b - 1) + 127].doc < c;
    }
  }

  /** Blocks before a lagging iterator's current block end before c. */
  lemma BlocksBehind(it: PostingIter, f: int, c: nat)
    requires Tracks(it, true, f) && it.skip.Some? && it.currDoc < c && f < c
    ensures var from := if it.blockIdx > it.shallowIdx then it.blockIdx else it.shallowIdx;
            from <= |it.skip.value.l0DocIDs| && forall k :: 0 <= k < from ==> it.skip.value.l0DocIDs[k] < c
  {
    hide EncodeList, Blocks, Offset, PostingIter.Loaded, PostingIter.Empty, WellBuilt;
    var sl := it.skip.value;
    forall k | 0 <= k < it.blockIdx && k < |sl.l0DocIDs| ensures sl.l0DocIDs[k] < c {
      assert sl.l0DocIDs[k] == it.list[128 * k + 127].doc;
    }
  }

  // ----- the pivot

  /** The terms before p cannot lift a document above theta on their own. */
  ghost predicate PivotSafe(ubs: seq<real>, theta: real, p: nat) {
    p <= |ubs| && (p > 0 ==> Sum(ubs, p) * MARGIN < theta)
  }

  ghost predicate UBsOf(entries: seq<TermEntry>, ubs: seq<real>) {
    |ubs| == |entries| && forall i :: 0 <= i < |ubs| ==> ubs[i] == entries[i].ub
  }

  /** A document in no essential list is bounded by the non-essential bounds; with p == 0 it does not match. */
  lemma OnlyNonEssential(entries: seq<TermEntry>, s: Scoring, ubs: seq<real>, theta: real, p: nat, d: nat)
    requires AllDominated(entries, s) && UBsOf(entries, ubs) && PivotSafe(ubs, theta, p)
    requires forall i :: p <= i < |entries| ==> !InList(entries[i].iter.list, d)
    ensures p == 0 ==> !Matches(entries, d) && Full(entries, s, d) == 0.0
    ensures p > 0 ==> Full(entries, s, d) < theta
  {
    hide Dominated, Contribution, InList;
    SumCTail(entries, s, d, p, |entries|);
    forall i | 0 <= i < p ensures Contribution(entries[i], s, d) <= ubs[i] * MARGIN {
      ContributionBounds(entries[i], s, d);
    }
    SumCBounded(entries, s, d, ubs, p);
  }

  // ----- the heap

  ghost predicate InHeap(es: seq<HeapEntry>, d: nat) {
    exists i :: 0 <= i < |es| && es[i].docNum == d
  }

  /** Entries are distinct matching documents up to f with their exhaustive scores. */
  ghost predicate EntriesExact(es: seq<HeapEntry>, entries: seq<TermEntry>, s: Scoring, f: int) {
    && (forall i, j :: 0 <= i < j < |es| ==> es[i].docNum != es[j].docNum)
    && (forall i :: 0 <= i < |es| ==> es[i].docNum <= f && Matches(entries, es[i].docNum))
    && (forall i :: 0 <= i < |es| ==> es[i].score == Full(entries, s, es[i].docNum))
  }

  /** theta is the least score of a full heap. */
  ghost predicate IsMin(es: seq<HeapEntry>, theta: real) {
    (exists i :: 0 <= i < |es| && es[i].score == theta) && forall i :: 0 <= i < |es| ==> theta <= es[i].score
  }

  /** d may be absent from the heap: it does not match while there is room, or does not beat theta. */
  ghost predicate MayDrop(es: seq<HeapEntry>, entries: seq<TermEntry>, s: Scoring, k: nat, theta: real, d: nat) {
    if |es| < k then !Matches(entries, d) else Full(entries, s, d) <= theta
  }

  /** The run invariant: the heap is the exact top-k of the documents up to f. */
  ghost predicate HeapOk(es: seq<HeapEntry>, entries: seq<TermEntry>, s: Scoring, k: nat, theta: real, f: int) {
    && |es| <= k && EntriesExact(es, entries, s, f) && theta >= 0.0
    && (if |es| < k then theta == 0.0 else IsMin(es, theta))
    && (forall d: nat :: d <= f && !InHeap(es, d) ==> MayDrop(es, entries, s, k, theta, d))
  }

  /** Documents that may be dropped are passed. */
  lemma Pass(es: seq<HeapEntry>, entries: seq<TermEntry>, s: Scoring, k: nat, theta: real, f: int, f': int)
    requires HeapOk(es, entries, s, k, theta, f) && f <= f'
    requires forall d: nat :: f < d <= f' ==> MayDrop(es, entries, s, k, theta, d)
    ensures HeapOk(es, entries, s, k, theta, f')
  {
    hide Full, Matches, MayDrop;
  }

  /** A scored document enters a heap with room. */
  lemma Push(es: seq<HeapEntry>, es': seq<HeapEntry>, entries: seq<TermEntry>, s: Scoring, k: nat, theta: real, theta': real,
             c: nat, score: real)
    requires HeapOk(es, entries, s, k, theta, c - 1) && AllDominated(entries, s)
    requires |es| < k && Matches(entries, c) && score == Full(entries, s, c)
    requires multiset(es') == multiset(es) + multiset{HeapEntry(c, score)}
    requires if |es'| == k then IsMin(es', theta') else theta' == theta
    ensures HeapOk(es', entries, s, k, theta', c) && |es'| == |es| + 1
  {
    hide Full, Matches, InHeap, EntriesExact, MayDrop, AllDominated;
    var all := es + [HeapEntry(c, score)];
    assert multiset(all) == multiset(es');
    assert |multiset(es')| == |es'| && |multiset(all)| == |all|;
    EntryJoins(es, all, |es|, entries, s, c);
    SameEntries(all, es', entries, s, c);
    if |es'| == k { MinNonNegative(es', entries, s, theta', c); }
    forall d: nat | d <= c && !InHeap(es', d) ensures MayDrop(es', entries, s, k, theta', d) {
      SameMembers(all, es', d);
      DropBefore(es, HeapEntry(c, score), entries, s, k, theta, d);
      NoMatchMayDrop(es', entries, s, k, theta', d);
    }
  }

  lemma DropBefore(es: seq<HeapEntry>, e: HeapEntry, entries: seq<TermEntry>, s: Scoring, k: nat, theta: real, d: nat)
    requires |es| < k && d <= e.docNum && !InHeap(es + [e], d)
    requires forall x: nat :: x <= e.docNum - 1 && !InHeap(es, x) ==> MayDrop(es, entries, s, k, theta, x)
    ensures !Matches(entries, d)
  {
    hide Matches;
    var all := es + [e];
    assert all[|es|].docNum == e.docNum;
    if InHeap(es, d) { HeapGrows(es, all, d); }
    assert MayDrop(es, entries, s, k, theta, d);
  }

  lemma NoMatchMayDrop(es: seq<HeapEntry>, entries: seq<TermEntry>, s: Scoring, k: nat, theta: real, d: nat)
    requires AllDominated(entries, s) && !Matches(entries, d) && theta >= 0.0
    ensures MayDrop(es, entries, s, k, theta, d)
  {
    hide AllDominated, Matches;
    NoMatchIsZero(entries, s, d);
  }

  lemma HeapGrows(es: seq<HeapEntry>, all: seq<HeapEntry>, d: nat)
    requires es <= all && InHeap(es, d)
    ensures InHeap(all, d)
  {
    var i :| 0 <= i < |es| && es[i].docNum == d;
    assert all[i].docNum == d;
  }

  lemma NoMatchIsZero(entries: seq<TermEntry>, s: Scoring, d: nat)
    requires AllDominated(entries, s) && !Matches(entries, d)
    ensures Full(entries, s, d) == 0.0
  {
    hide Dominated, InList;
    SumCTail(entries, s, d, 0, |entries|);
  }

  lemma MinNonNegative(es: seq<HeapEntry>, entries: seq<TermEntry>, s: Scoring, theta: real, f: int)
    requires AllDominated(entries, s) && EntriesExact(es, entries, s, f) && IsMin(es, theta)
    ensures theta >= 0.0
  {
    hide Dominated, Matches;
    var i :| 0 <= i < |es| && es[i].score == theta;
    SumCNonNegative(entries, s, es[i].docNum, 0, |entries|);
  }

  lemma SameMembers(a: seq<HeapEntry>, b: seq<HeapEntry>, d: nat)
    requires multiset(a) == multiset(b)
    ensures InHeap(a, d) <==> InHeap(b, d)
  {
    if InHeap(a, d) {
      var i :| 0 <= i < |a| && a[i].docNum == d;
      assert a[i] in multiset(b);
      assert a[i] in b;
    }
    if InHeap(b, d) {
      var i :| 0 <= i < |b| && b[i].docNum == d;
      assert b[i] in multiset(a);
      assert b[i] in a;
    }
  }

  /** Exactness does not depend on the order the heap keeps its entries in. */
  lemma SameEntries(a: seq<HeapEntry>, b: seq<HeapEntry>, entries: seq<TermEntry>, s: Scoring, f: int)
    requires multiset(a) == multiset(b) && EntriesExact(a, entries, s, f)
    ensures EntriesExact(b, entries, s, f)
  {
    hide Full, Matches;
    forall i | 0 <= i < |b|
      ensures b[i].docNum <= f && Matches(entries, b[i].docNum) && b[i].score == Full(entries, s, b[i].docNum)
    {
      assert b[i] in multiset(a);
      assert b[i] in a;
    }
    forall i, j | 0 <= i < j < |b| ensures b[i].docNum != b[j].docNum {
      SameDocSameEntry(a, b, i, j);
    }
  }

  lemma SameDocSameEntry(a: seq<HeapEntry>, b: seq<HeapEntry>, i: nat, j: nat)
    requires multiset(a) == multiset(b) && i < j < |b|
    requires forall i, j :: 0 <= i < j < |a| ==> a[i].docNum != a[j].docNum
    ensures b[i].docNum != b[j].docNum
  {
    assert b[i] in multiset(a) && b[j] in multiset(a);
    assert b[i] in a && b[j] in a;
    if b[i] == b[j] {
      assert b == b[..j] + [b[j]] + b[j + 1..];
      assert b[i] in b[..j];
      assert multiset(b)[b[i]] >= 2;
      CountDistinct(a, b[i]);
    }
  }

  lemma {:induction false} CountDistinct(a: seq<HeapEntry>, x: HeapEntry)
    requires forall i, j :: 0 <= i < j < |a| ==> a[i].docNum != a[j].docNum
    ensures multiset(a)[x] <= 1
  {
    if a != [] {
      var init, last := a[..|a| - 1], a[|a| - 1];
      CountDistinct(init, x);
      assert a == init + [last];
      if x == last { assert x !in init; }
    }
  }

  /** The entry of a document scored now joins entries of earlier ones. */
  lemma EntryJoins(es: seq<HeapEntry>, all: seq<HeapEntry>, m: nat, entries: seq<TermEntry>, s: Scoring, c: nat)
    requires EntriesExact(es, entries, s, c - 1) && m < |all| && m <= |es| <= |all| <= |es| + 1
    requires forall i :: 0 <= i < |all| && i != m ==> i < |es| && all[i] == es[i]
    requires all[m].docNum == c && Matches(entries, c) && all[m].score == Full(entries, s, c)
    ensures EntriesExact(all, entries, s, c)
  {
    hide Full, Matches;
  }

  lemma AllAtLeast(es: seq<HeapEntry>, all: seq<HeapEntry>, theta: real)
    requires multiset(all) == multiset(es)
    requires forall i :: 0 <= i < |all| ==> theta <= all[i].score
    ensures forall i :: 0 <= i < |es| ==> theta <= es[i].score
  {
    forall i | 0 <= i < |es| ensures theta <= es[i].score {
      assert es[i] in multiset(all);
      assert es[i] in all;
    }
  }

  lemma OnlyReplaced(es: seq<HeapEntry>, m: nat, e: HeapEntry, d: nat)
    requires m < |es| && InHeap(es, d)
    ensures es[m].docNum == d || InHeap(es[m := e], d)
  {
    var all := es[m := e];
    var i :| 0 <= i < |es| && es[i].docNum == d;
    if i != m { assert all[i].docNum == d; }
  }

  /** What may be dropped after entry m, the least, gave way: what could be before, and entry m's document. */
  lemma DropAfter(es: seq<HeapEntry>, m: nat, e: HeapEntry, entries: seq<TermEntry>, s: Scoring, k: nat, theta: real, d: nat)
    requires m < |es| == k && EntriesExact(es, entries, s, e.docNum - 1) && es[m].score == theta
    requires d <= e.docNum && !InHeap(es[m := e], d)
    requires forall x: nat :: x <= e.docNum - 1 && !InHeap(es, x) ==> MayDrop(es, entries, s, k, theta, x)
    ensures Full(entries, s, d) <= theta
  {
    hide Full, Matches;
    var all := es[m := e];
    assert all[m].docNum == e.docNum;
    if InHeap(es, d) {
      OnlyReplaced(es, m, e, d);
    } else {
      assert MayDrop(es, entries, s, k, theta, d);
    }
  }

  /** A scored document that beats theta replaces a minimal entry. */
  lemma Replace(es: seq<HeapEntry>, es': seq<HeapEntry>, entries: seq<TermEntry>, s: Scoring, k: nat, theta: real, theta': real,
                c: nat, score: real, m: nat)
    requires HeapOk(es, entries, s, k, theta, c - 1)
    requires m < |es| == k && Matches(entries, c) && score == Full(entries, s, c) && score > theta == es[m].score
    requires multiset(es') == multiset(es[m := HeapEntry(c, score)])
    requires IsMin(es', theta')
    ensures HeapOk(es', entries, s, k, theta', c) && theta' >= theta
  {
    hide Full, Matches, InHeap, EntriesExact, MayDrop;
    var e := HeapEntry(c, score);
    var all := es[m := e];
    assert |multiset(es')| == |es'| && |multiset(all)| == |all|;
    EntryJoins(es, all, m, entries, s, c);
    SameEntries(all, es', entries, s, c);
    AllAtLeast(es', all, theta);
    forall d: nat | d <= c && !InHeap(es', d) ensures MayDrop(es', entries, s, k, theta', d) {
      SameMembers(all, es', d);
      DropAfter(es, m, e, entries, s, k, theta, d);
      DropBelow(es', entries, s, k, theta, theta', d);
    }
  }

  lemma DropBelow(es: seq<HeapEntry>, entries: seq<TermEntry>, s: Scoring, k: nat, theta: real, theta': real, d: nat)
    requires |es| == k && Full(entries, s, d) <= theta <= theta'
    ensures MayDrop(es, entries, s, k, theta', d)
  {
  }
}
