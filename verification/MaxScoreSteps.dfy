/**
 The steps of the search loop of internal/index/maxscore.go: the pivot, the
 candidate, the block bounds, the range skip and the scoring of one candidate.
 */
module MaxScoreSteps {
  import opened Options
  import opened PostingFormat
  import opened Skips = SkipList
  import opened Cache = BlockCache
  import opened Iter = PostingIter
  import opened MaxScoreModel
  import opened MaxScorePruning

  /** ^uint64(0): no block bounds the range. */
  const NO_END: nat := 0xFFFF_FFFF_FFFF_FFFF

  // ----- the pivot

  /** p is the number of leading terms that together stay below theta, as many as possible. */
  ghost predicate IsPivot(ubs: seq<real>, theta: real, p: nat) {
    && p <= |ubs| && (theta == 0.0 ==> p == 0)
    && (forall i {:trigger Sum(ubs, i)} :: 0 < i <= p ==> Sum(ubs, i) * MARGIN < theta)
    && (theta != 0.0 && p < |ubs| ==> var next := p + 1; Sum(ubs, next) * MARGIN >= theta)
  }

  ghost predicate SuffixesOf(suffixUB: seq<real>, ubs: seq<real>) {
    && |suffixUB| == |ubs|
    && forall i :: 0 <= i < |ubs| ==> suffixUB[i] == Sum(ubs, |ubs|) - Sum(ubs, i)
  }

  method FindPivot(suffixUB: seq<real>, theta: real, ghost ubs: seq<real>) returns (p: nat)
    requires SuffixesOf(suffixUB, ubs)
    ensures IsPivot(ubs, theta, p) && PivotSafe(ubs, theta, p)
  {
    var n := |suffixUB|;
    if theta == 0.0 || n == 0 {
      return 0;
    }
    var total := suffixUB[0];
    p := 0;
    var i := 1;
    while i <= n
      invariant i == p + 1 <= n + 1
      invariant forall k {:trigger Sum(ubs, k)} :: 0 < k <= p ==> Sum(ubs, k) * MARGIN < theta
    {
      var head := total;
      if i < n {
        head := total - suffixUB[i];
      }
      assert head == Sum(ubs, i);
      if head * MARGIN >= theta {
        break;
      }
      p := i;
      i := i + 1;
    }
  }

  /** A higher threshold never brings a term back among the essential ones. */
  lemma PivotMonotone(ubs: seq<real>, theta: real, theta': real, p: nat, p': nat)
    requires IsPivot(ubs, theta, p) && IsPivot(ubs, theta', p') && 0.0 <= theta <= theta'
    ensures p <= p'
  {
  }

  // ----- what the loop keeps of its iterators

  /** Entries share no objects but the cache. */
  ghost predicate Apart(entries: seq<TermEntry>, cache: BlockCache?) {
    && (forall i :: 0 <= i < |entries| ==> entries[i].iter.blockCache == cache)
    && (forall i, j :: 0 <= i < j < |entries| ==>
          && entries[i].iter != entries[j].iter
          && entries[i].iter.docBuf != entries[j].iter.docBuf && entries[i].iter.docBuf != entries[j].iter.tfBuf
          && entries[i].iter.tfBuf != entries[j].iter.docBuf && entries[i].iter.tfBuf != entries[j].iter.tfBuf)
  }

  ghost function Footprint(entries: seq<TermEntry>, cache: BlockCache?): set<object> {
    (set i | 0 <= i < |entries| :: entries[i].iter as object)
    + (set i | 0 <= i < |entries| :: entries[i].iter.docBuf as object)
    + (set i | 0 <= i < |entries| :: entries[i].iter.tfBuf as object)
    + (if cache == null then {} else {cache})
  }

  lemma InFootprint(entries: seq<TermEntry>, cache: BlockCache?, i: nat)
    requires i < |entries|
    ensures entries[i].iter in Footprint(entries, cache)
    ensures entries[i].iter.docBuf in Footprint(entries, cache) && entries[i].iter.tfBuf in Footprint(entries, cache)
    ensures cache != null ==> cache in Footprint(entries, cache)
  {
  }

  /** The objects of entry i lie in the footprint and are no other entry's. */
  lemma ApartFrom(entries: seq<TermEntry>, cache: BlockCache?, i: nat)
    requires i < |entries| && Apart(entries, cache)
    ensures var it := entries[i].iter;
            it.blockCache == cache && it in Footprint(entries, cache) && it.docBuf in Footprint(entries, cache) && it.tfBuf in Footprint(entries, cache)
            && (cache != null ==> cache in Footprint(entries, cache))
    ensures forall j :: 0 <= j < |entries| && j != i ==>
              var it, other := entries[i].iter, entries[j].iter;
              other != it && other.docBuf != it.docBuf && other.docBuf != it.tfBuf && other.tfBuf != it.docBuf && other.tfBuf != it.tfBuf
  {
    InFootprint(entries, cache, i);
  }

  /** Entries lo, ..., hi - 1 track the frontier f. */
  ghost predicate AllTrack(entries: seq<TermEntry>, alive: seq<bool>, f: int, lo: nat, hi: nat)
    requires lo <= hi <= |entries| == |alive|
    reads Footprint(entries, null)
  {
    forall i :: lo <= i < hi ==> Tracks(entries[i].iter, alive[i], f)
  }

  /** The live terms from lo to hi stand past f. */
  ghost predicate Ahead(entries: seq<TermEntry>, alive: seq<bool>, f: int, lo: nat, hi: nat)
    requires lo <= hi <= |entries| == |alive|
    reads Footprint(entries, null)
  {
    forall i :: lo <= i < hi && alive[i] ==> entries[i].iter.currDoc > f
  }

  ghost predicate CacheOk(cache: BlockCache?)
    reads if cache == null then {} else {cache}
  {
    cache != null ==> cache.Consistent()
  }

  /** SkipTo, seen from the frontier: the term has nothing left up to target - 1. */
  method SkipPast(it: PostingIter, target: nat, ghost f: int) returns (alive: bool)
    requires Tracks(it, true, f) && f < target && CacheOk(it.blockCache)
    modifies it, it.docBuf, it.tfBuf, it.CacheSet()
    ensures CacheOk(it.blockCache) && Tracks(it, alive, target - 1) && (alive ==> it.currDoc >= target)
  {
    hide Describes, EncodeList, PostingIter.Loaded, PostingIter.Empty;
    alive := it.SkipTo(target);
  }

  /** Next, when the current posting is at the frontier. */
  method StepPast(it: PostingIter, ghost f: int) returns (alive: bool)
    requires Tracks(it, true, f) && it.currDoc == f && CacheOk(it.blockCache)
    modifies it, it.docBuf, it.tfBuf, it.CacheSet()
    ensures CacheOk(it.blockCache) && Tracks(it, alive, f) && (alive ==> it.currDoc > f)
  {
    hide Describes, EncodeList, PostingIter.Loaded, PostingIter.Empty;
    alive := it.Next();
  }

  // ----- the candidate

  ghost predicate SomeAlive(alive: seq<bool>, lo: nat, hi: nat)
    requires hi <= |alive|
  {
    exists j :: lo <= j < hi && alive[j]
  }

  /** The least current document among the live essential terms. */
  method SelectCandidate(entries: seq<TermEntry>, alive: seq<bool>, p: nat) returns (candidateDoc: nat, found: bool)
    requires p <= |entries| == |alive|
    ensures found == SomeAlive(alive, p, |alive|)
    ensures found ==> exists i :: p <= i < |entries| && alive[i] && entries[i].iter.currDoc == candidateDoc
    ensures found ==> forall i :: p <= i < |entries| && alive[i] ==> candidateDoc <= entries[i].iter.currDoc
  {
    candidateDoc, found := 0, false;
    for i := p to |entries|
      invariant found == SomeAlive(alive, p, i)
      invariant found ==> exists j :: p <= j < i && alive[j] && entries[j].iter.currDoc == candidateDoc
      invariant found ==> forall j :: p <= j < i && alive[j] ==> candidateDoc <= entries[j].iter.currDoc
    {
      if !alive[i] {
        continue;
      }
      if !found || entries[i].iter.currDoc < candidateDoc {
        candidateDoc := entries[i].iter.currDoc;
        found := true;
      }
    }
  }

  // ----- block bounds

  /** tb, with the margin, bounds what e adds to any document from c to end. */
  ghost predicate Covers(e: TermEntry, s: Scoring, c: nat, tb: real, end: nat) {
    && c <= end && (end != NO_END ==> end < |s.docLens|)
    && forall d: nat {:trigger Contribution(e, s, d)} :: c <= d <= end ==> Contribution(e, s, d) <= tb * MARGIN
  }

  lemma GlobalCovers(e: TermEntry, s: Scoring, c: nat)
    requires Dominated(e, s) && c <= NO_END
    ensures Covers(e, s, c, e.ub, NO_END)
  {
    hide Dominated, Contribution;
    forall d: nat | c <= d <= NO_END ensures Contribution(e, s, d) <= e.ub * MARGIN {
      ContributionBounds(e, s, d);
    }
  }

  lemma DeadCovers(e: TermEntry, s: Scoring, f: int, c: nat)
    requires Dominated(e, s) && Tracks(e.iter, false, f) && f < c <= NO_END
    ensures Covers(e, s, c, 0.0, NO_END)
  {
    hide Dominated, Contribution, Tracks, InList;
    forall d: nat | c <= d <= NO_END ensures Contribution(e, s, d) <= 0.0 * MARGIN {
      NotAhead(e.iter, false, f, d);
      ContributionBounds(e, s, d);
    }
  }

  /** Every posting of a document from c to end lies in block b. */
  ghost predicate OnlyIn(ps: seq<Posting>, c: nat, end: nat, b: nat) {
    forall j :: 0 <= j < |ps| && c <= ps[j].doc <= end ==> 128 * b <= j < 128 * b + 128
  }

  lemma BlockCovers(e: TermEntry, s: Scoring, c: nat, b: nat, end: nat)
    requires Dominated(e, s) && e.iter.skip.Some? && b < FullBlocks(e.iter.list)
    requires b < |e.iter.skip.value.l0Impact| && e.iter.skip.value.l0Impact[b] != 0.0
    requires c <= end < |s.docLens| && OnlyIn(e.iter.list, c, end, b)
    ensures Covers(e, s, c, Weigh(e.qtf, e.iter.skip.value.l0Impact[b]), end)
  {
    hide Dominated, Contribution;
    forall d: nat | c <= d <= end ensures Contribution(e, s, d) <= BlockBound(e, b) * MARGIN {
      ContributionInBlock(e, s, d, b);
    }
  }

  /** A bound for one live term: its current block's, the block of c found ahead of it, or its global one. */
  method TermBound(e: TermEntry, c: nat, ghost s: Scoring, ghost f: int) returns (tb: real, end: nat)
    requires Dominated(e, s) && Tracks(e.iter, true, f) && f + 1 == c < |s.docLens| < 0x1_0000_0000
    modifies e.iter`shallowIdx
    ensures Tracks(e.iter, true, f) && Covers(e, s, c, tb, end)
  {
    hide Dominated, Tracks, Covers, BlockBound;
    var it := e.iter;
    var impact, ok := 0.0, false;
    if it.currDoc >= c {
      impact, end, ok := CurrentBlock(e, c, s, f);
    } else {
      impact, end, ok := LaggingBlock(e, c, s, f);
    }
    if !ok || impact == 0.0 {
      GlobalCovers(e, s, c);
      return e.ub, NO_END;
    }
    tb := Weigh(e.qtf, impact);
  }

  /** A term at or past c has nothing between c and its current block. */
  method CurrentBlock(e: TermEntry, c: nat, ghost s: Scoring, ghost f: int) returns (impact: real, end: nat, ok: bool)
    requires Dominated(e, s) && Tracks(e.iter, true, f) && f + 1 == c <= e.iter.currDoc
    ensures ok && impact != 0.0 ==> Covers(e, s, c, Weigh(e.qtf, impact), end)
  {
    hide Dominated, Tracks, Covers;
    var it := e.iter;
    impact := BlockMaxImpact(it.skip, it.blockIdx);
    var last := LastDocIDInBlock(it.skip, it.blockIdx);
    ok := last.Some?;
    end := if ok then last.value else 0;
    if ok && impact != 0.0 {
      CurrentEnd(e, s, f);
      ghost var b := it.blockIdx;
      forall j | 0 <= j < |it.list| && c <= it.list[j].doc <= end ensures 128 * b <= j < 128 * b + 128 {
        InCurrentBlock(it, f, it.list[j].doc);
      }
      BlockCovers(e, s, c, b, end);
    }
  }

  lemma CurrentEnd(e: TermEntry, s: Scoring, f: int)
    requires Dominated(e, s) && Tracks(e.iter, true, f) && e.iter.skip.Some?
    requires 0 <= e.iter.blockIdx < |e.iter.skip.value.l0DocIDs|
    ensures e.iter.blockIdx < FullBlocks(e.iter.list) == |e.iter.skip.value.l0Impact|
    ensures e.iter.currDoc <= e.iter.skip.value.l0DocIDs[e.iter.blockIdx] < |s.docLens|
  {
    hide EncodeList, Blocks, Offset, PostingIter.Loaded, PostingIter.Empty, Weighted, BlockBound;
    var it, b := e.iter, e.iter.blockIdx;
    assert it.skip.value.l0DocIDs[b] == it.list[128 * b + 127].doc;
  }

  /** A term behind c: the block of c, through the skip list alone. */
  method LaggingBlock(e: TermEntry, c: nat, ghost s: Scoring, ghost f: int) returns (impact: real, end: nat, ok: bool)
    requires Dominated(e, s) && Tracks(e.iter, true, f) && f + 1 == c > e.iter.currDoc
    modifies e.iter`shallowIdx
    ensures Tracks(e.iter, true, f)
    ensures ok && impact != 0.0 ==> Covers(e, s, c, Weigh(e.qtf, impact), end)
  {
    hide Dominated, Covers, PostingIter.Loaded, PostingIter.Empty, EncodeList, Blocks, Offset, Describes;
    var it := e.iter;
    ghost var from := if it.blockIdx > it.shallowIdx then it.blockIdx else it.shallowIdx;
    if it.skip.Some? {
      BlocksBehind(it, f, c);
    }
    impact, end, ok := it.ShallowBlock(c);
    if ok && impact != 0.0 {
      SameShape(e, s);
      LaggingCovers(e, s, from, c);
    }
  }

  lemma SameShape(e: TermEntry, s: Scoring)
    requires Dominated(e, s) && e.iter.skip.Some?
    ensures |e.iter.skip.value.l0Impact| == |e.iter.skip.value.l0DocIDs| == FullBlocks(e.iter.list)
  {
    hide EncodeList, Blocks, Offset, Weighted, BlockBound;
  }

  lemma LaggingCovers(e: TermEntry, s: Scoring, from: nat, c: nat)
    requires Dominated(e, s) && e.iter.skip.Some? && from <= |e.iter.skip.value.l0DocIDs|
    requires forall k :: 0 <= k < from ==> e.iter.skip.value.l0DocIDs[k] < c
    requires var sl := e.iter.skip.value; var b := FirstFrom(sl.l0DocIDs, from, c);
             b < |sl.l0DocIDs| && b < |sl.l0Impact| && sl.l0Impact[b] != 0.0
    ensures var sl := e.iter.skip.value; var b := FirstFrom(sl.l0DocIDs, from, c);
            Covers(e, s, c, Weigh(e.qtf, sl.l0Impact[b]), sl.l0DocIDs[b])
  {
    hide Covers, Weighted, EncodeList, Blocks, Offset, FirstFrom, WellBuilt;
    var sl := e.iter.skip.value;
    var b := FirstFrom(sl.l0DocIDs, from, c);
    var end := sl.l0DocIDs[b];
    assert end == e.iter.list[128 * b + 127].doc;
    forall j | 0 <= j < |e.iter.list| && c <= e.iter.list[j].doc <= end ensures 128 * b <= j < 128 * b + 128 {
      InFirstBlock(sl, e.iter.list, from, c, e.iter.list[j].doc);
    }
    BlockCovers(e, s, c, b, end);
  }
}
