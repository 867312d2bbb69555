/**
 The inner loops of one round of internal/index/maxscore.go over the query's
 terms: bounding a range, skipping it, and scoring one candidate.
 */
module MaxScoreRounds {
  import opened PostingFormat
  import opened Cache = BlockCache
  import opened Iter = PostingIter
  import opened MaxScoreModel
  import opened MaxScorePruning
  import opened MaxScoreSteps

  // ----- bounding the range

  lemma NarrowCovers(e: TermEntry, s: Scoring, c: nat, tb: real, end: nat, end': nat)
    requires Covers(e, s, c, tb, end) && c <= end' <= end && (end' != NO_END ==> end' < |s.docLens|)
    ensures Covers(e, s, c, tb, end')
  {
    hide Contribution;
  }

  ghost predicate AllCover(entries: seq<TermEntry>, s: Scoring, c: nat, tbs: seq<real>, end: nat) {
    && |tbs| <= |entries|
    && forall i :: 0 <= i < |tbs| ==> Covers(entries[i], s, c, tbs[i], end)
  }

  lemma Narrow(entries: seq<TermEntry>, s: Scoring, c: nat, tbs: seq<real>, end: nat, end': nat)
    requires AllCover(entries, s, c, tbs, end) && c <= end' <= end && (end' != NO_END ==> end' < |s.docLens|)
    ensures AllCover(entries, s, c, tbs, end')
  {
    hide Covers;
    forall i | 0 <= i < |tbs| ensures Covers(entries[i], s, c, tbs[i], end') {
      NarrowCovers(entries[i], s, c, tbs[i], end, end');
    }
  }

  ghost function Iters(entries: seq<TermEntry>): set<PostingIter> {
    set i | 0 <= i < |entries| :: entries[i].iter
  }

  /** The bound of one term: 0 when it is exhausted. */
  method BoundOf(entries: seq<TermEntry>, alive: seq<bool>, i: nat, c: nat, ghost s: Scoring, ghost f: int, ghost cache: BlockCache?)
    returns (tb: real, end: nat)
    requires i < |entries| == |alive| && AllDominated(entries, s) && Apart(entries, cache)
    requires AllTrack(entries, alive, f, 0, |entries|) && f + 1 == c < |s.docLens| < 0x1_0000_0000
    modifies entries[i].iter`shallowIdx
    ensures AllTrack(entries, alive, f, 0, |entries|) && Covers(entries[i], s, c, tb, end) && (!alive[i] ==> tb == 0.0)
  {
    hide Dominated, Tracks, Covers;
    if !alive[i] {
      DeadCovers(entries[i], s, f, c);
      return 0.0, NO_END;
    }
    tb, end := TermBound(entries[i], c, s, f);
    forall j | 0 <= j < |entries| ensures Tracks(entries[j].iter, alive[j], f) {
      if j != i { assert old(Tracks(entries[j].iter, alive[j], f)); }
    }
  }

  /** One more term: the range ends where the first of its blocks does. */
  method AddBound(ghost entries: seq<TermEntry>, ghost s: Scoring, ghost c: nat, ghost tbs: seq<real>, ghost tb: real,
                  minEnd: nat, end: nat) returns (minEnd': nat)
    requires |tbs| < |entries| && AllCover(entries, s, c, tbs, minEnd) && Covers(entries[|tbs|], s, c, tb, end)
    requires c <= minEnd && (minEnd != NO_END ==> minEnd < |s.docLens|)
    ensures c <= minEnd' && (minEnd' != NO_END ==> minEnd' < |s.docLens|)
    ensures AllCover(entries, s, c, tbs + [tb], minEnd') && Sum(tbs + [tb], |tbs| + 1) == Sum(tbs, |tbs|) + tb
  {
    hide Contribution;
    minEnd' := if end < minEnd then end else minEnd;
    Narrow(entries, s, c, tbs, minEnd, minEnd');
    NarrowCovers(entries[|tbs|], s, c, tb, end, minEnd');
    SumPrefix(tbs, [tb], |tbs|);
  }

  lemma {:induction false} SumPrefix(a: seq<real>, b: seq<real>, n: nat)
    requires n <= |a|
    ensures Sum(a + b, n) == Sum(a, n)
  {
    if n > 0 { SumPrefix(a, b, n - 1); }
  }

  /** Bounds of every term, their sum, and the end of the range they hold on. */
  method BlockBounds(entries: seq<TermEntry>, alive: seq<bool>, c: nat, ghost s: Scoring, ghost f: int, ghost cache: BlockCache?)
    returns (termBound: seq<real>, bound: real, minEnd: nat)
    requires AllDominated(entries, s) && Apart(entries, cache) && |alive| == |entries|
    requires AllTrack(entries, alive, f, 0, |entries|) && f + 1 == c < |s.docLens| < 0x1_0000_0000
    modifies Iters(entries)`shallowIdx
    ensures AllTrack(entries, alive, f, 0, |entries|)
    ensures |termBound| == |entries| && bound == Sum(termBound, |entries|)
    ensures forall i :: 0 <= i < |entries| && !alive[i] ==> termBound[i] == 0.0
    ensures c <= minEnd && (minEnd != NO_END ==> minEnd < |s.docLens|) && AllCover(entries, s, c, termBound, minEnd)
  {
    hide Dominated, Tracks, Covers;
    termBound, bound, minEnd := [], 0.0, NO_END;
    for i := 0 to |entries|
      invariant |termBound| == i && bound == Sum(termBound, i)
      invariant forall j :: 0 <= j < i && !alive[j] ==> termBound[j] == 0.0
      invariant AllTrack(entries, alive, f, 0, |entries|)
      invariant c <= minEnd && (minEnd != NO_END ==> minEnd < |s.docLens|) && AllCover(entries, s, c, termBound, minEnd)
    {
      var tb, end := BoundOf(entries, alive, i, c, s, f, cache);
      minEnd := AddBound(entries, s, c, termBound, tb, minEnd, end);
      termBound := termBound + [tb];
      bound := bound + tb;
    }
  }


  /** The sum of the bounds, with the margin, bounds every document of the range. */
  lemma RangeBounded(entries: seq<TermEntry>, s: Scoring, c: nat, tbs: seq<real>, end: nat, d: nat)
    requires AllCover(entries, s, c, tbs, end) && |tbs| == |entries| && c <= d <= end
    ensures Full(entries, s, d) <= Sum(tbs, |entries|) * MARGIN
  {
    hide Contribution;
    SumCBounded(entries, s, d, tbs, |entries|);
  }

  // ----- skipping the range

  /** SkipTo of entry i, which leaves every other entry alone. */
  method SkipEntry(entries: seq<TermEntry>, alive: seq<bool>, i: nat, cache: BlockCache?, target: nat, ghost f: int)
    returns (ok: bool)
    requires i < |entries| == |alive| && Apart(entries, cache) && CacheOk(cache)
    requires Tracks(entries[i].iter, true, f) && f < target
    modifies entries[i].iter, entries[i].iter.docBuf, entries[i].iter.tfBuf, entries[i].iter.CacheSet()
    ensures CacheOk(cache) && Tracks(entries[i].iter, ok, target - 1) && (ok ==> entries[i].iter.currDoc >= target)
    ensures forall j :: 0 <= j < |entries| && j != i ==> Same(entries[j].iter)
  {
    hide Tracks;
    ok := SkipPast(entries[i].iter, target, f);
  }

  twostate predicate Same(it: PostingIter)
    reads it, it.docBuf, it.tfBuf
  {
    unchanged(it) && unchanged(it.docBuf) && unchanged(it.tfBuf)
  }

  /** A frontier may only rise. */
  lemma Raise(it: PostingIter, alive: bool, f: int, f': int)
    requires Tracks(it, alive, f) && f <= f'
    ensures Tracks(it, alive, f')
  {
    hide EncodeList, PostingIter.Valid;
  }

  lemma RaiseAll(entries: seq<TermEntry>, alive: seq<bool>, f: int, f': int, lo: nat, hi: nat)
    requires lo <= hi <= |entries| == |alive| && AllTrack(entries, alive, f, lo, hi) && f <= f'
    ensures AllTrack(entries, alive, f', lo, hi)
  {
    hide Tracks;
    forall i | lo <= i < hi ensures Tracks(entries[i].iter, alive[i], f') {
      Raise(entries[i].iter, alive[i], f, f');
    }
  }

  /** Terms before i have passed minEnd where they must; the others still track f. */
  ghost predicate Skipping(entries: seq<TermEntry>, alive: seq<bool>, p: nat, i: nat, minEnd: nat, f: int)
    reads Footprint(entries, null)
  {
    && p <= i <= |entries| == |alive| && f < minEnd
    && AllTrack(entries, alive, minEnd, 0, i) && Ahead(entries, alive, minEnd, p, i)
    && AllTrack(entries, alive, f, i, |entries|)
  }

  lemma SomeAliveStep(alive: seq<bool>, lo: nat, i: nat, ok: bool)
    requires lo <= i < |alive|
    ensures SomeAlive(alive[i := ok], lo, i + 1) == (SomeAlive(alive, lo, i) || ok)
  {
    var next := alive[i := ok];
    assert ok ==> next[i];
    assert forall j :: 0 <= j < i ==> next[j] == alive[j];
  }

  lemma StartSkip(entries: seq<TermEntry>, alive: seq<bool>, p: nat, minEnd: nat, f: int)
    requires p <= |entries| == |alive| && AllTrack(entries, alive, f, 0, |entries|) && f < minEnd
    ensures Skipping(entries, alive, p, p, minEnd, f)
  {
    hide Tracks;
    RaiseAll(entries, alive, f, minEnd, 0, p);
  }

  /** The essential terms move past minEnd; the others stay where they are. */
  method SkipRange(entries: seq<TermEntry>, alive: seq<bool>, cache: BlockCache?, p: nat, minEnd: nat, ghost f: int)
    returns (alive': seq<bool>, anyAlive: bool)
    requires p <= |entries| == |alive| && Apart(entries, cache) && CacheOk(cache)
    requires AllTrack(entries, alive, f, 0, |entries|) && f < minEnd
    modifies Footprint(entries, cache)
    ensures |alive'| == |entries| && CacheOk(cache)
    ensures AllTrack(entries, alive', minEnd, 0, |entries|) && Ahead(entries, alive', minEnd, p, |entries|)
    ensures anyAlive == SomeAlive(alive', p, |entries|)
  {
    hide Tracks, Apart, Footprint, AllTrack, Ahead, CacheOk;
    StartSkip(entries, alive, p, minEnd, f);
    alive', anyAlive := alive, false;
    for i := p to |entries|
      invariant Skipping(entries, alive', p, i, minEnd, f) && CacheOk(cache)
      invariant anyAlive == SomeAlive(alive', p, i)
    {
      ghost var before := alive';
      var ok := SkipIfBehind(entries, alive', cache, p, i, minEnd, f);
      alive' := alive'[i := ok];
      anyAlive := anyAlive || alive'[i];
      SomeAliveStep(before, p, i, ok);
    }
  }

  method SkipIfBehind(entries: seq<TermEntry>, alive: seq<bool>, cache: BlockCache?, p: nat, i: nat, minEnd: nat, ghost f: int)
    returns (ok: bool)
    requires i < |entries| && Skipping(entries, alive, p, i, minEnd, f) && Apart(entries, cache) && CacheOk(cache)
    modifies Footprint(entries, cache)
    ensures Skipping(entries, alive[i := ok], p, i + 1, minEnd, f) && CacheOk(cache)
  {
    hide Tracks, Apart, Footprint;
    ApartFrom(entries, cache, i);
    if alive[i] && entries[i].iter.currDoc <= minEnd {
      ok := SkipEntry(entries, alive, i, cache, minEnd + 1, f);
    } else {
      Raise(entries[i].iter, alive[i], f, minEnd);
      ok := alive[i];
    }
    forall j | 0 <= j < |entries| && j != i ensures Tracks(entries[j].iter, alive[j], if j < i then minEnd else f) {
      assert old(Tracks(entries[j].iter, alive[j], if j < i then minEnd else f));
    }
  }
}
