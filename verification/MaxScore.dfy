/**
 Block-max MaxScore (internal/index/maxscore.go): the search loop keeps the exact
 top-K of the documents it has passed, and ends when no other document counts.
 */
module MaxScore {
  import opened Collections
  import opened PostingFormat
  import opened Skips = SkipList
  import opened Cache = BlockCache
  import opened Iter = PostingIter
  import opened Heap = ScoreHeap
  import opened TopK
  import opened MaxScoreModel
  import opened MaxScorePruning
  import opened MaxScoreSteps
  import opened MaxScoreRounds
  import opened MaxScoreScoring

  // ----- before the loop

  /** The first Next of a fresh iterator. */
  method FirstNext(it: PostingIter) returns (alive: bool)
    requires it.Valid() && it.read == 0 && it.shallowIdx == 0 && CacheOk(it.blockCache)
    modifies it, it.docBuf, it.tfBuf, it.CacheSet()
    ensures CacheOk(it.blockCache) && Tracks(it, alive, -1)
  {
    alive := it.Next();
  }

  ghost predicate Fresh(entries: seq<TermEntry>, lo: nat)
    reads Footprint(entries, null)
  {
    forall i :: lo <= i < |entries| ==> entries[i].iter.Valid() && entries[i].iter.read == 0 && entries[i].iter.shallowIdx == 0
  }

  method Advance(entries: seq<TermEntry>, cache: BlockCache?) returns (alive: seq<bool>)
    requires Apart(entries, cache) && CacheOk(cache) && Fresh(entries, 0)
    modifies Footprint(entries, cache)
    ensures |alive| == |entries| && CacheOk(cache) && AllTrack(entries, alive, -1, 0, |entries|)
  {
    hide Tracks, PostingIter.Valid;
    alive := seq(|entries|, _ => false);
    for i := 0 to |entries|
      invariant |alive| == |entries| && CacheOk(cache)
      invariant AllTrack(entries, alive, -1, 0, i) && Fresh(entries, i)
    {
      var ok := AdvanceOne(entries, alive, cache, i);
      alive := alive[i := ok];
    }
  }

  method AdvanceOne(entries: seq<TermEntry>, alive: seq<bool>, cache: BlockCache?, i: nat) returns (ok: bool)
    requires i < |entries| == |alive| && Apart(entries, cache) && CacheOk(cache)
    requires AllTrack(entries, alive, -1, 0, i) && Fresh(entries, i)
    modifies Footprint(entries, cache)
    ensures CacheOk(cache) && AllTrack(entries, alive[i := ok], -1, 0, i + 1) && Fresh(entries, i + 1)
  {
    hide Tracks, PostingIter.Valid, Apart, Footprint;
    ApartFrom(entries, cache, i);
    ok := FirstNext(entries[i].iter);
    forall j | 0 <= j < i ensures Tracks(entries[j].iter, alive[j], -1) {
      assert old(Tracks(entries[j].iter, alive[j], -1));
    }
    forall j | i < j < |entries| ensures entries[j].iter.Valid() {
      assert old(entries[j].iter.Valid());
    }
  }

  /** Suffix sums of the bounds. */
  method SuffixBounds(entries: seq<TermEntry>) returns (suffixUB: seq<real>, ghost ubs: seq<real>)
    requires entries != []
    ensures UBsOf(entries, ubs) && SuffixesOf(suffixUB, ubs)
  {
    var n := |entries|;
    ubs := seq(n, i requires 0 <= i < n => entries[i].ub);
    suffixUB := seq(n, _ => 0.0)[n - 1 := entries[n - 1].ub];
    var i := n - 1;
    while i > 0
      invariant 0 <= i < n == |suffixUB|
      invariant forall k :: i <= k < n ==> suffixUB[k] == Sum(ubs, n) - Sum(ubs, k)
    {
      i := i - 1;
      suffixUB := suffixUB[i := suffixUB[i + 1] + entries[i].ub];
    }
  }

  // ----- documents no essential term lists

  lemma Unlisted(es: seq<HeapEntry>, entries: seq<TermEntry>, s: Scoring, k: nat, ubs: seq<real>, theta: real, f: int, p: nat, d: nat)
    requires HeapOk(es, entries, s, k, theta, f) && AllDominated(entries, s) && UBsOf(entries, ubs)
    requires IsPivot(ubs, theta, p) && PivotSafe(ubs, theta, p)
    requires forall i :: p <= i < |entries| ==> !InList(entries[i].iter.list, d)
    ensures MayDrop(es, entries, s, k, theta, d)
  {
    hide AllDominated, EntriesExact, InList, Full, Matches;
    OnlyNonEssential(entries, s, ubs, theta, p, d);
  }

  /** Everything before the first current document of an essential term is passed. */
  lemma PassTo(es: seq<HeapEntry>, entries: seq<TermEntry>, alive: seq<bool>, s: Scoring, k: nat, ubs: seq<real>, theta: real,
               f: int, f': int, p: nat)
    requires HeapOk(es, entries, s, k, theta, f) && AllDominated(entries, s) && UBsOf(entries, ubs)
    requires IsPivot(ubs, theta, p) && PivotSafe(ubs, theta, p) && |alive| == |entries|
    requires AllTrack(entries, alive, f, 0, |entries|)
    requires forall i :: p <= i < |entries| && alive[i] ==> entries[i].iter.currDoc > f'
    ensures HeapOk(es, entries, s, k, theta, if f <= f' then f' else f)
  {
    hide AllDominated, EntriesExact, InList, Full, Matches, Tracks, IsPivot, PivotSafe, HeapOk, MayDrop;
    forall d: nat | f < d <= f' ensures MayDrop(es, entries, s, k, theta, d) {
      forall i | p <= i < |entries| ensures !InList(entries[i].iter.list, d) {
        NotAhead(entries[i].iter, alive[i], f, d);
      }
      Unlisted(es, entries, s, k, ubs, theta, f, p, d);
    }
    Pass(es, entries, s, k, theta, f, if f <= f' then f' else f);
  }

  // ----- what is left to read

  /** Postings of a live term not read yet, and the term itself; a dead term has nothing left. */
  ghost function Left(it: PostingIter, alive: bool): nat
    reads it
  {
    if alive && it.read <= |it.list| then |it.list| - it.read + 1 else 0
  }

  /** Unread postings of the terms from p on, plus those of these terms that are live. */
  ghost function Unread(entries: seq<TermEntry>, alive: seq<bool>, p: nat): nat
    reads Footprint(entries, null)
    decreases |entries| - p
  {
    if p >= |entries| || p >= |alive| then 0 else Left(entries[p].iter, alive[p]) + Unread(entries, alive, p + 1)
  }

  /** The postings of a list past the frontier. */
  ghost function Past(ps: seq<Posting>, f: int): nat
    requires f >= -1
  {
    |ps| - FirstReaching(ps, 0, f + 1)
  }

  ghost function AllPast(entries: seq<TermEntry>, f: int, p: nat): nat
    requires f >= -1
    decreases |entries| - p
  {
    if p >= |entries| then 0 else Past(entries[p].iter.list, f) + AllPast(entries, f, p + 1)
  }

  lemma LeftIsPast(it: PostingIter, alive: bool, f: int)
    requires Tracks(it, alive, f) && f >= -1 && (alive ==> it.currDoc > f)
    ensures Left(it, alive) == Past(it.list, f)
  {
    hide EncodeList, Blocks, Offset, PostingIter.Loaded, PostingIter.Empty, Describes;
    var ps := it.list;
    if alive {
      assert ps[it.read - 1].doc == it.currDoc;
      FirstIs(ps, 0, f + 1, it.read - 1);
    } else {
      FirstIs(ps, 0, f + 1, |ps|);
    }
  }

  lemma {:induction false} FirstIs(ps: seq<Posting>, from: nat, target: nat, k: nat)
    requires from <= k <= |ps| && (forall j :: from <= j < k ==> ps[j].doc < target) && (k < |ps| ==> ps[k].doc >= target)
    ensures FirstReaching(ps, from, target) == k
    decreases |ps| - from
  {
    if from < k { FirstIs(ps, from + 1, target, k); }
  }

  lemma {:induction false} FirstRises(ps: seq<Posting>, from: nat, target: nat, target': nat)
    requires from <= |ps| && target <= target'
    ensures FirstReaching(ps, from, target) <= FirstReaching(ps, from, target')
    decreases |ps| - from
  {
    if from < |ps| { FirstRises(ps, from + 1, target, target'); }
  }

  /** Between rounds, what the essential terms have left is what lies past the frontier. */
  lemma {:induction false} UnreadIsPast(entries: seq<TermEntry>, alive: seq<bool>, f: int, p: nat)
    requires p <= |entries| == |alive| && f >= -1
    requires AllTrack(entries, alive, f, 0, |entries|) && Ahead(entries, alive, f, p, |entries|)
    ensures Unread(entries, alive, p) == AllPast(entries, f, p)
    decreases |entries| - p
  {
    hide Tracks, Past, Left;
    if p < |entries| {
      LeftIsPast(entries[p].iter, alive[p], f);
      UnreadIsPast(entries, alive, f, p + 1);
    }
  }

  lemma PastFalls(ps: seq<Posting>, f: int, f': int, c: nat)
    requires -1 <= f <= f'
    ensures Past(ps, f') <= Past(ps, f)
    ensures f < c <= f' && InList(ps, c) && ValidList(ps) ==> Past(ps, f') < Past(ps, f)
  {
    hide ValidList;
    var a, b := FirstReaching(ps, 0, f + 1), FirstReaching(ps, 0, f' + 1);
    FirstRises(ps, 0, f + 1, f' + 1);
    if f < c <= f' && InList(ps, c) && ValidList(ps) {
      var j :| 0 <= j < |ps| && ps[j].doc == c;
      Ascends(ps, a, j);
      Ascends(ps, b, j);
    }
  }

  lemma Ascends(ps: seq<Posting>, a: nat, j: nat)
    requires ValidList(ps) && a <= |ps| && j < |ps|
    ensures a < j ==> ps[a].doc < ps[j].doc
    ensures j < a < |ps| ==> ps[j].doc < ps[a].doc
  {
  }

  lemma {:induction false} AllPastFalls(entries: seq<TermEntry>, f: int, f': int, p: nat)
    requires -1 <= f <= f'
    ensures AllPast(entries, f', p) <= AllPast(entries, f, p)
    decreases |entries| - p
  {
    hide Past;
    if p < |entries| {
      PastFalls(entries[p].iter.list, f, f', 0);
      AllPastFalls(entries, f, f', p + 1);
    }
  }

  /** A posting of term i that the frontier passes is left no longer; a higher pivot leaves out whole terms. */
  lemma {:induction false} AllPastLess(entries: seq<TermEntry>, f: int, f': int, p0: nat, p: nat, i: nat, c: nat)
    requires -1 <= f < c <= f' && p0 <= p <= i < |entries|
    requires InList(entries[i].iter.list, c) && ValidList(entries[i].iter.list)
    ensures AllPast(entries, f', p) < AllPast(entries, f, p0)
    decreases |entries| - p0
  {
    hide Past, ValidList, InList;
    PastFalls(entries[p0].iter.list, f, f', c);
    if p0 < p {
      AllPastLess(entries, f, f', p0 + 1, p, i, c);
    } else if p0 < i {
      AllPastLess(entries, f, f', p0 + 1, p0 + 1, i, c);
    } else {
      AllPastFalls(entries, f, f', p0 + 1);
    }
  }

  /** A round that moved the frontier past its candidate left less to read. */
  lemma RoundLeavesLess(entries: seq<TermEntry>, s: Scoring, ubs: seq<real>, h: ScoreHeap, k: nat, alive': seq<bool>, theta': real,
                        theta: real, f: int, f': int, p0: nat, p: nat, c: nat)
    requires AllDominated(entries, s) && Running(entries, s, ubs, h, k, alive', theta', f', p, theta)
    requires -1 <= f < c <= f' && p0 <= p && Essential(entries, p, c)
    ensures Unread(entries, alive', p) < AllPast(entries, f, p0)
  {
    hide Tracks, InList, HeapOk, IsPivot, Unread, AllPast, Dominated, Past;
    var i :| p <= i < |entries| && InList(entries[i].iter.list, c);
    ListIsValid(entries[i], s);
    UnreadIsPast(entries, alive', f', p);
    AllPastLess(entries, f, f', p0, p, i, c);
  }

  lemma ListIsValid(e: TermEntry, s: Scoring)
    requires Dominated(e, s)
    ensures ValidList(e.iter.list)
  {
    hide Weighted, BlockBound, EncodeList, Describes, ValidList;
  }

  /** Some essential term lists c. */
  ghost predicate Essential(entries: seq<TermEntry>, p: nat, c: nat) {
    exists i :: p <= i < |entries| && InList(entries[i].iter.list, c)
  }

  // ----- one round

  /** What holds between rounds; p0 was the pivot of the threshold theta0. */
  ghost predicate Running(entries: seq<TermEntry>, s: Scoring, ubs: seq<real>, h: ScoreHeap, k: nat, alive: seq<bool>,
                          theta: real, f: int, p0: nat, theta0: real)
    reads Footprint(entries, null), h
  {
    && |alive| == |entries| && AllTrack(entries, alive, f, 0, |entries|)
    && p0 <= |entries| && Ahead(entries, alive, f, p0, |entries|)
    && h.Valid() && HeapOk(h.es, entries, s, k, theta, f) && -1 <= f < |s.docLens|
    && IsPivot(ubs, theta0, p0) && 0.0 <= theta0 <= theta
  }

  /** The range [c, minEnd] holds nothing that beats theta. */
  lemma PassRange(es: seq<HeapEntry>, entries: seq<TermEntry>, s: Scoring, k: nat, theta: real, c: nat, tbs: seq<real>, minEnd: nat)
    requires HeapOk(es, entries, s, k, theta, c - 1) && theta > 0.0
    requires AllCover(entries, s, c, tbs, minEnd) && |tbs| == |entries| && c <= minEnd
    requires Sum(tbs, |entries|) * MARGIN <= theta
    ensures HeapOk(es, entries, s, k, theta, minEnd)
  {
    hide AllCover, EntriesExact, Full, Matches, Sum;
    forall d: nat | c - 1 < d <= minEnd ensures MayDrop(es, entries, s, k, theta, d) {
      RangeBounded(entries, s, c, tbs, minEnd, d);
    }
    Pass(es, entries, s, k, theta, c - 1, minEnd);
  }

  /** The scored candidate goes into the heap when it belongs there. */
  method Offer(h: ScoreHeap, ghost entries: seq<TermEntry>, ghost s: Scoring, k: nat, theta: real, c: nat, score: real)
    returns (theta': real)
    requires h.Valid() && HeapOk(h.es, entries, s, k, theta, c - 1) && AllDominated(entries, s) && k > 0
    requires Matches(entries, c)
    requires score == Full(entries, s, c) || (|h.es| == k && score <= theta && Full(entries, s, c) <= theta)
    modifies h
    ensures h.Valid() && HeapOk(h.es, entries, s, k, theta', c) && theta <= theta'
  {
    hide AllDominated, EntriesExact, Full, Matches, IsMin, InHeap;
    ghost var es := h.es;
    theta' := theta;
    var full := h.Len() == k;
    if !full {
      h.Push(c, score);
      Grown(es, h.es, HeapEntry(c, score));
      if h.Len() == k {
        theta' := h.Min();
        MinOf(h);
      }
      Push(es, h.es, entries, s, k, theta, theta', c, score);
    } else if score > theta {
      RootIsTheta(h, entries, s, k, theta, c - 1);
      h.ReplaceMin(c, score);
      Kept(es, h.es, HeapEntry(c, score));
      theta' := h.Min();
      MinOf(h);
      Replace(es, h.es, entries, s, k, theta, theta', c, score, 0);
    } else {
      assert MayDrop(es, entries, s, k, theta, c);
      Pass(es, entries, s, k, theta, c - 1, c);
    }
  }

  lemma Grown(es: seq<HeapEntry>, es': seq<HeapEntry>, e: HeapEntry)
    requires multiset(es') == multiset(es) + multiset{e}
    ensures |es'| == |es| + 1
  {
    assert |multiset(es')| == |es'| && |multiset(es)| == |es|;
  }

  lemma Kept(es: seq<HeapEntry>, es': seq<HeapEntry>, e: HeapEntry)
    requires es != [] && multiset(es') == multiset(es[0 := e])
    ensures |es'| == |es|
  {
    assert |multiset(es')| == |es'| && |multiset(es[0 := e])| == |es|;
  }

  lemma MinOf(h: ScoreHeap)
    requires h.Valid() && h.es != []
    ensures IsMin(h.es, h.Min()) && h.Min() == h.es[0].score
  {
  }

  lemma RootIsTheta(h: ScoreHeap, entries: seq<TermEntry>, s: Scoring, k: nat, theta: real, f: int)
    requires h.Valid() && HeapOk(h.es, entries, s, k, theta, f) && |h.es| == k > 0
    ensures h.es[0].score == theta
  {
    hide EntriesExact, MayDrop;
  }

  /** The candidate is a document of some essential list, past the frontier. */
  lemma CandidateAhead(entries: seq<TermEntry>, s: Scoring, alive: seq<bool>, f: int, p0: nat, p: nat, c: nat)
    requires p0 <= p <= |entries| == |alive| && AllDominated(entries, s)
    requires AllTrack(entries, alive, f, 0, |entries|) && Ahead(entries, alive, f, p0, |entries|)
    requires exists i :: p <= i < |entries| && alive[i] && entries[i].iter.currDoc == c
    ensures f < c < |s.docLens| < 0x1_0000_0000 && Matches(entries, c) && Essential(entries, p, c)
  {
    hide Tracks, InList, Dominated;
    var i :| p <= i < |entries| && alive[i] && entries[i].iter.currDoc == c;
    CurrentInList(entries[i], s, f);
  }

  lemma CurrentInList(e: TermEntry, s: Scoring, f: int)
    requires Dominated(e, s) && Tracks(e.iter, true, f)
    ensures InList(e.iter.list, e.iter.currDoc) && e.iter.currDoc < |s.docLens| < 0x1_0000_0000
  {
    hide EncodeList, Blocks, Offset, PostingIter.Loaded, PostingIter.Empty, Describes, Weigh, Weighted, BlockBound;
    assert e.iter.list[e.iter.read - 1].doc == e.iter.currDoc;
  }

  /** Score the candidate and offer it to the heap. */
  method ScoreCandidate(entries: seq<TermEntry>, s: Scoring, cache: BlockCache?, h: ScoreHeap, k: nat, alive: seq<bool>,
                        theta: real, p: nat, c: nat, tbs: seq<real>, ghost end: nat)
    returns (alive': seq<bool>, theta': real)
    requires AllDominated(entries, s) && Apart(entries, cache) && CacheOk(cache) && h !in Footprint(entries, cache)
    requires p <= |entries| == |alive| && AllTrack(entries, alive, c - 1, 0, |entries|)
    requires h.Valid() && HeapOk(h.es, entries, s, k, theta, c - 1) && k > 0
    requires c < |s.docLens| && Matches(entries, c)
    requires |tbs| == |entries|
    requires theta > 0.0 ==> c <= end && AllCover(entries, s, c, tbs, end)
    requires theta > 0.0 ==> forall i :: 0 <= i < |entries| && !alive[i] ==> tbs[i] == 0.0
    modifies Footprint(entries, cache), h
    ensures CacheOk(cache) && |alive'| == |entries| && AllTrack(entries, alive', c, 0, |entries|)
    ensures Ahead(entries, alive', c, p, |entries|)
    ensures h.Valid() && HeapOk(h.es, entries, s, k, theta', c) && theta <= theta'
  {
    hide Tracks, Apart, Footprint, AllCover, AllDominated, Matches, Full, HeapOk;
    var score;
    alive', score := ScoreEssential(entries, alive, cache, p, c, s);
    var full := h.Len() == k;
    alive', score := ScoreRest(entries, alive', cache, p, c, s, score, full && theta > 0.0, theta, tbs, end);
    RaiseAll(entries, alive', c - 1, c, 0, p);
    theta' := Offer(h, entries, s, k, theta, c, score);
  }

  /** Skip a range that cannot beat theta; done when that exhausts every essential term. */
  method SkipOver(entries: seq<TermEntry>, s: Scoring, cache: BlockCache?, ghost ubs: seq<real>, h: ScoreHeap, k: nat,
                  alive: seq<bool>, theta: real, p: nat, c: nat, tbs: seq<real>, minEnd: nat)
    returns (alive': seq<bool>, done: bool)
    requires AllDominated(entries, s) && Apart(entries, cache) && CacheOk(cache) && h !in Footprint(entries, cache)
    requires UBsOf(entries, ubs) && IsPivot(ubs, theta, p) && PivotSafe(ubs, theta, p)
    requires p <= |entries| == |alive| && AllTrack(entries, alive, c - 1, 0, |entries|)
    requires h.Valid() && HeapOk(h.es, entries, s, k, theta, c - 1) && theta > 0.0
    requires AllCover(entries, s, c, tbs, minEnd) && |tbs| == |entries| && c <= minEnd < |s.docLens|
    requires Sum(tbs, |entries|) * MARGIN <= theta
    modifies Footprint(entries, cache)
    ensures CacheOk(cache) && h.Valid()
    ensures if done then HeapOk(h.es, entries, s, k, theta, |s.docLens|)
            else Running(entries, s, ubs, h, k, alive', theta, minEnd, p, theta)
  {
    hide Tracks, Apart, Footprint, AllCover, AllDominated, HeapOk, Ahead, IsPivot, PivotSafe, AllTrack, UBsOf;
    PassRange(h.es, entries, s, k, theta, c, tbs, minEnd);
    var any;
    alive', any := SkipRange(entries, alive, cache, p, minEnd, c - 1);
    done := !any;
    if done {
      PassTo(h.es, entries, alive', s, k, ubs, theta, minEnd, |s.docLens|, p);
    }
  }

  lemma ItersInFootprint(entries: seq<TermEntry>, cache: BlockCache?)
    ensures forall it :: it in Iters(entries) ==> it in Footprint(entries, cache)
  {
  }

  /** One round of the loop: the essential terms have less to read after it. */
  method Round(entries: seq<TermEntry>, s: Scoring, cache: BlockCache?, suffixUB: seq<real>, h: ScoreHeap, k: nat,
               alive: seq<bool>, theta: real, ghost ubs: seq<real>, ghost f: int, ghost p0: nat, ghost theta0: real)
    returns (alive': seq<bool>, theta': real, done: bool, ghost f': int, ghost p': nat)
    requires AllDominated(entries, s) && Apart(entries, cache) && CacheOk(cache) && h !in Footprint(entries, cache)
    requires UBsOf(entries, ubs) && SuffixesOf(suffixUB, ubs) && k > 0
    requires Running(entries, s, ubs, h, k, alive, theta, f, p0, theta0)
    modifies Footprint(entries, cache), h
    ensures CacheOk(cache) && h.Valid() && theta <= theta' && p0 <= p' && IsPivot(ubs, theta, p')
    ensures -1 <= f' <= |s.docLens|
    ensures if done then HeapOk(h.es, entries, s, k, theta', |s.docLens|)
            else Running(entries, s, ubs, h, k, alive', theta', f', p', theta) && f < f'
    ensures !done ==> Unread(entries, alive', p') < old(Unread(entries, alive, p0))
  {
    hide Tracks, Apart, AllCover, AllDominated, HeapOk, IsPivot, Sum, Matches, Unread, AllPast, Essential;
    UnreadIsPast(entries, alive, f, p0);
    alive', theta', done, f' := alive, theta, false, f;
    var n := |entries|;
    var p := FindPivot(suffixUB, theta, ubs);
    PivotMonotone(ubs, theta0, theta, p0, p);
    p' := p;
    if p == n {
      PassTo(h.es, entries, alive, s, k, ubs, theta, f, |s.docLens|, p);
      done := true;
      return;
    }
    var c: nat, found: bool := SelectCandidate(entries, alive, p);
    if !found {
      PassTo(h.es, entries, alive, s, k, ubs, theta, f, |s.docLens|, p);
      done := true;
      return;
    }
    CandidateAhead(entries, s, alive, f, p0, p, c);
    ghost var before: int := c - 1;
    PassTo(h.es, entries, alive, s, k, ubs, theta, f, before, p);
    RaiseAll(entries, alive, f, before, 0, n);
    alive', theta', done, f' := FromCandidate(entries, s, cache, h, k, alive, theta, ubs, p, c);
    if !done { RoundLeavesLess(entries, s, ubs, h, k, alive', theta', theta, f, f', p0, p, c); }
  }

  /** The block-max check of the candidate, then the skip or the scoring. */
  method FromCandidate(entries: seq<TermEntry>, s: Scoring, cache: BlockCache?, h: ScoreHeap, k: nat,
                       alive: seq<bool>, theta: real, ghost ubs: seq<real>, p: nat, c: nat)
    returns (alive': seq<bool>, theta': real, done: bool, ghost f': int)
    requires AllDominated(entries, s) && Apart(entries, cache) && CacheOk(cache) && h !in Footprint(entries, cache)
    requires UBsOf(entries, ubs) && IsPivot(ubs, theta, p) && PivotSafe(ubs, theta, p)
    requires p <= |entries| == |alive| && AllTrack(entries, alive, c - 1, 0, |entries|)
    requires h.Valid() && HeapOk(h.es, entries, s, k, theta, c - 1) && k > 0 && theta >= 0.0
    requires c < |s.docLens| < 0x1_0000_0000 && Matches(entries, c)
    modifies Footprint(entries, cache), h
    ensures CacheOk(cache) && h.Valid() && theta <= theta'
    ensures if done then HeapOk(h.es, entries, s, k, theta', |s.docLens|)
            else Running(entries, s, ubs, h, k, alive', theta', f', p, theta) && c <= f'
    ensures -1 <= f' <= |s.docLens|
  {
    hide Tracks, Apart, Footprint, AllCover, AllDominated, HeapOk, Ahead, IsPivot, PivotSafe, AllTrack, UBsOf, Matches;
    alive', theta', done, f' := alive, theta, false, c;
    var termBound, bound, minEnd := seq(|entries|, _ => 0.0), 0.0, NO_END;
    if theta > 0.0 {
      ItersInFootprint(entries, cache);
      termBound, bound, minEnd := BlockBounds(entries, alive, c, s, c - 1, cache);
      if bound * MARGIN <= theta && minEnd != NO_END {
        alive', done := SkipOver(entries, s, cache, ubs, h, k, alive, theta, p, c, termBound, minEnd);
        f' := minEnd;
        return;
      }
    }
    alive', theta' := ScoreCandidate(entries, s, cache, h, k, alive, theta, p, c, termBound, minEnd);
  }

  /** The loop: it ends with the exact top-k of all documents in the heap. */
  method Loop(entries: seq<TermEntry>, s: Scoring, cache: BlockCache?, suffixUB: seq<real>, h: ScoreHeap, k: nat,
              alive0: seq<bool>, ghost ubs: seq<real>)
    returns (theta: real)
    requires AllDominated(entries, s) && Apart(entries, cache) && CacheOk(cache) && h !in Footprint(entries, cache)
    requires UBsOf(entries, ubs) && SuffixesOf(suffixUB, ubs) && k > 0
    requires Running(entries, s, ubs, h, k, alive0, 0.0, -1, 0, 0.0) && h.Valid()
    modifies Footprint(entries, cache), h
    ensures CacheOk(cache) && h.Valid() && HeapOk(h.es, entries, s, k, theta, |s.docLens|)
  {
    hide *;
    theta := 0.0;
    var alive, done := alive0, false;
    ghost var f, p0, theta0 := -1, 0, 0.0;
    while !done
      invariant CacheOk(cache) && h.Valid() && -1 <= f <= |s.docLens|
      invariant if done then HeapOk(h.es, entries, s, k, theta, |s.docLens|)
                else Running(entries, s, ubs, h, k, alive, theta, f, p0, theta0)
      decreases !done, Unread(entries, alive, p0)
    {
      ghost var before := theta;
      alive, theta, done, f, p0 := Round(entries, s, cache, suffixUB, h, k, alive, theta, ubs, f, p0, theta0);
      theta0 := before;
    }
  }

  method Run(entries: seq<TermEntry>, s: Scoring, cache: BlockCache?, k: nat) returns (h: ScoreHeap, ghost theta: real)
    requires entries != [] && k > 0 && AllDominated(entries, s) && Apart(entries, cache) && CacheOk(cache)
    requires Fresh(entries, 0)
    modifies Footprint(entries, cache)
    ensures CacheOk(cache) && fresh(h) && h.Valid() && HeapOk(h.es, entries, s, k, theta, |s.docLens|)
  {
    hide Tracks, Apart, AllDominated, HeapOk, IsPivot, SuffixesOf, Running, PostingIter.Valid;
    var suffixUB;
    ghost var ubs;
    suffixUB, ubs := SuffixBounds(entries);
    h := new ScoreHeap();
    var alive := Advance(entries, cache);
    StartRun(entries, s, ubs, h, k, alive);
    theta := Loop(entries, s, cache, suffixUB, h, k, alive, ubs);
  }

  lemma StartRun(entries: seq<TermEntry>, s: Scoring, ubs: seq<real>, h: ScoreHeap, k: nat, alive: seq<bool>)
    requires |alive| == |entries| && AllTrack(entries, alive, -1, 0, |entries|) && h.es == [] && h.Valid() && k > 0
    requires |ubs| == |entries|
    ensures Running(entries, s, ubs, h, k, alive, 0.0, -1, 0, 0.0)
  {
    hide Tracks, Full, Matches, Sum;
  }

  // ----- the answer

  ghost function FullScore(entries: seq<TermEntry>, s: Scoring): nat -> real {
    (d: nat) => Full(entries, s, d)
  }

  ghost function Matching(entries: seq<TermEntry>, s: Scoring): set<nat> {
    set d | 0 <= d < |s.docLens| && Matches(entries, d)
  }

  ghost function DocNums(order: seq<HeapEntry>): (docs: seq<nat>)
    ensures |docs| == |order| && forall i :: 0 <= i < |docs| ==> docs[i] == order[i].docNum
  {
    seq(|order|, i requires 0 <= i < |order| => order[i].docNum)
  }

  lemma MatchInRange(entries: seq<TermEntry>, s: Scoring, d: nat)
    requires AllDominated(entries, s) && Matches(entries, d)
    ensures d in Matching(entries, s)
  {
    var i :| 0 <= i < |entries| && InList(entries[i].iter.list, d);
    assert Dominated(entries[i], s);
  }

  /** A heap that is exact up to the last document is an exact top-k. */
  lemma HeapIsTopK(es: seq<HeapEntry>, order: seq<HeapEntry>, entries: seq<TermEntry>, s: Scoring, k: nat, theta: real)
    requires AllDominated(entries, s) && HeapOk(es, entries, s, k, theta, |s.docLens|)
    requires multiset(order) == multiset(es)
    requires forall i, j :: 0 <= i < j < |order| ==> order[i].score >= order[j].score
    ensures IsTopK(DocNums(order), FullScore(entries, s), Matching(entries, s), k)
    ensures forall i :: 0 <= i < |order| ==> order[i].score == Full(entries, s, order[i].docNum)
  {
    hide Full, Matches, AllDominated;
    var docs, full, matching := DocNums(order), FullScore(entries, s), Matching(entries, s);
    assert |multiset(order)| == |order| && |multiset(es)| == |es|;
    SameEntries(es, order, entries, s, |s.docLens|);
    forall i | 0 <= i < |docs| ensures docs[i] in matching {
      MatchInRange(entries, s, order[i].docNum);
    }
    forall d | d in matching && d !in docs ensures MayDrop(es, entries, s, k, theta, d) {
      SameMembers(es, order, d);
    }
    AllTheta(es, order, k, theta);
    DistinctCount(docs);
    if |es| < k {
      assert Elements(docs) == matching;
    } else {
      SubsetCount(Elements(docs), matching);
    }
  }

  lemma AllTheta(es: seq<HeapEntry>, order: seq<HeapEntry>, k: nat, theta: real)
    requires multiset(order) == multiset(es) && (|es| == k ==> IsMin(es, theta))
    ensures |es| == k ==> forall i :: 0 <= i < |order| ==> theta <= order[i].score
  {
    forall i | 0 <= i < |order| && |es| == k ensures theta <= order[i].score {
      assert order[i] in multiset(es);
      assert order[i] in es;
    }
  }
}
