/** Scoring one candidate (internal/index/maxscore.go): essential terms, then the others with early exit. */
module MaxScoreScoring {
  import opened PostingFormat
  import opened Skips = SkipList
  import opened Cache = BlockCache
  import opened Iter = PostingIter
  import opened MaxScoreModel
  import opened MaxScorePruning
  import opened MaxScoreSteps
  import opened MaxScoreRounds

  /** A term standing at or past c contributes what its current posting says. */
  lemma AtCursor(e: TermEntry, s: Scoring, c: nat)
    requires Dominated(e, s) && Tracks(e.iter, true, c - 1) && e.iter.currDoc >= c && c < |s.docLens|
    ensures Contribution(e, s, c) ==
            if e.iter.currDoc == c then Weigh(e.qtf, s.score(e.iter.currTF, e.idf, s.docLens[c], s.avgDocLen)) else 0.0
    ensures e.iter.currDoc == c ==> InList(e.iter.list, c)
  {
    hide EncodeList, Blocks, Offset, PostingIter.Loaded, PostingIter.Empty, Describes, Weigh;
    var it := e.iter;
    assert it.list[it.read - 1].doc == it.currDoc;
    if it.currDoc == c {
      ListIndex(it.list, c);
    } else {
      NotAhead(it, true, c - 1, c);
    }
  }

  lemma Gone(e: TermEntry, s: Scoring, c: nat)
    requires Dominated(e, s) && Tracks(e.iter, false, c - 1)
    ensures Contribution(e, s, c) == 0.0
  {
    hide Dominated, Tracks, Contribution, InList;
    NotAhead(e.iter, false, c - 1, c);
    ContributionBounds(e, s, c);
  }

  // ----- essential terms

  /** Score an essential term at c and step it past c. */
  method ScoreEssentialTerm(entries: seq<TermEntry>, alive: seq<bool>, i: nat, cache: BlockCache?, c: nat, s: Scoring)
    returns (ok: bool, add: real)
    requires i < |entries| == |alive| && Apart(entries, cache) && CacheOk(cache) && AllDominated(entries, s)
    requires Tracks(entries[i].iter, true, c - 1) && c < |s.docLens|
    modifies entries[i].iter, entries[i].iter.docBuf, entries[i].iter.tfBuf, entries[i].iter.CacheSet()
    ensures CacheOk(cache) && Tracks(entries[i].iter, ok, c) && (ok ==> entries[i].iter.currDoc > c)
    ensures add == Contribution(entries[i], s, c)
    ensures forall j :: 0 <= j < |entries| && j != i ==> Same(entries[j].iter)
  {
    hide Tracks, Dominated, Contribution, Weigh;
    add := 0.0;
    var e := entries[i];
    ok := SkipPast(e.iter, c, c - 1);
    if !ok {
      Gone(e, s, c);
      Raise(e.iter, false, c - 1, c);
      return;
    }
    AtCursor(e, s, c);
    Raise(e.iter, true, c - 1, c);
    if e.iter.currDoc == c {
      add := Weigh(e.qtf, s.score(e.iter.currTF, e.idf, s.docLens[c], s.avgDocLen));
      ok := StepPast(e.iter, c);
    }
  }

  /** Essential terms before i have moved past c, the others wait at or after it. */
  ghost predicate Scored(entries: seq<TermEntry>, alive: seq<bool>, p: nat, i: nat, c: nat)
    reads Footprint(entries, null)
  {
    && p <= i <= |entries| == |alive|
    && AllTrack(entries, alive, c - 1, 0, p)
    && AllTrack(entries, alive, c, p, i) && Ahead(entries, alive, c, p, i)
    && AllTrack(entries, alive, c - 1, i, |entries|)
  }

  method ScoreIfAlive(entries: seq<TermEntry>, alive: seq<bool>, cache: BlockCache?, p: nat, i: nat, c: nat, s: Scoring)
    returns (ok: bool, add: real)
    requires i < |entries| && Scored(entries, alive, p, i, c) && Apart(entries, cache) && CacheOk(cache)
    requires AllDominated(entries, s) && c < |s.docLens|
    modifies Footprint(entries, cache)
    ensures Scored(entries, alive[i := ok], p, i + 1, c) && CacheOk(cache)
    ensures add == Contribution(entries[i], s, c)
  {
    hide Tracks, Dominated, Contribution, Apart, Footprint;
    ApartFrom(entries, cache, i);
    if alive[i] {
      ok, add := ScoreEssentialTerm(entries, alive, i, cache, c, s);
    } else {
      Gone(entries[i], s, c);
      Raise(entries[i].iter, false, c - 1, c);
      ok, add := false, 0.0;
    }
    forall j | 0 <= j < |entries| && j != i
      ensures Tracks(entries[j].iter, alive[j], if p <= j < i then c else c - 1)
    {
      assert old(Tracks(entries[j].iter, alive[j], if p <= j < i then c else c - 1));
    }
  }

  method ScoreEssential(entries: seq<TermEntry>, alive: seq<bool>, cache: BlockCache?, p: nat, c: nat, s: Scoring)
    returns (alive': seq<bool>, score: real)
    requires p <= |entries| && Scored(entries, alive, p, p, c) && Apart(entries, cache) && CacheOk(cache)
    requires AllDominated(entries, s) && c < |s.docLens|
    modifies Footprint(entries, cache)
    ensures Scored(entries, alive', p, |entries|, c) && CacheOk(cache)
    ensures alive'[..p] == alive[..p]
    ensures score == SumC(entries, s, c, |entries|) - SumC(entries, s, c, p)
  {
    hide Tracks, Apart, Footprint, AllTrack, Ahead, CacheOk, AllDominated, Contribution;
    alive', score := alive, 0.0;
    for i := p to |entries|
      invariant Scored(entries, alive', p, i, c) && CacheOk(cache) && alive'[..p] == alive[..p]
      invariant score == SumC(entries, s, c, i) - SumC(entries, s, c, p)
    {
      var ok, add := ScoreIfAlive(entries, alive', cache, p, i, c, s);
      alive' := alive'[i := ok];
      score := score + add;
    }
  }

  // ----- the other terms

  /** A lagging term is brought to c and scored when it is there. */
  method ScoreOther(entries: seq<TermEntry>, alive: seq<bool>, cache: BlockCache?, p: nat, i: nat, c: nat, s: Scoring)
    returns (ok: bool, add: real)
    requires i < p && Scored(entries, alive, p, |entries|, c) && alive[i] && Apart(entries, cache) && CacheOk(cache)
    requires AllDominated(entries, s) && c < |s.docLens|
    modifies Footprint(entries, cache)
    ensures Scored(entries, alive[i := ok], p, |entries|, c) && CacheOk(cache)
    ensures add == Contribution(entries[i], s, c)
  {
    hide Tracks, Dominated, Contribution, Weigh, Apart, Footprint;
    ApartFrom(entries, cache, i);
    var e := entries[i];
    add := 0.0;
    ok := SkipEntry(entries, alive, i, cache, c, c - 1);
    if ok {
      AtCursor(e, s, c);
      if e.iter.currDoc == c {
        add := Weigh(e.qtf, s.score(e.iter.currTF, e.idf, s.docLens[c], s.avgDocLen));
      }
    } else {
      Gone(e, s, c);
    }
    forall j | 0 <= j < |entries| && j != i
      ensures Tracks(entries[j].iter, alive[j], if p <= j then c else c - 1)
    {
      assert old(Tracks(entries[j].iter, alive[j], if p <= j then c else c - 1));
    }
  }

  /** Stopping early: what is left cannot lift the document above theta. */
  lemma CannotBeat(entries: seq<TermEntry>, s: Scoring, c: nat, tbs: seq<real>, end: nat, n: nat, score: real, theta: real)
    requires AllDominated(entries, s) && AllCover(entries, s, c, tbs, end) && |tbs| == |entries| && n <= |entries| && c <= end
    requires score == SumC(entries, s, c, |entries|) - SumC(entries, s, c, n)
    requires score + Sum(tbs, n) * MARGIN <= theta
    ensures score <= theta && Full(entries, s, c) <= theta
  {
    hide Dominated, Contribution;
    SumCNonNegative(entries, s, c, 0, n);
    SumCBounded(entries, s, c, tbs, n);
  }

  lemma GoneAt(entries: seq<TermEntry>, alive: seq<bool>, p: nat, i: nat, c: nat, s: Scoring)
    requires i < p && Scored(entries, alive, p, |entries|, c) && !alive[i] && AllDominated(entries, s)
    ensures Contribution(entries[i], s, c) == 0.0
  {
    hide Dominated, Contribution, Tracks;
    Gone(entries[i], s, c);
  }

  /**
   From the highest bound down, until what the rest can add cannot lift the
   score above theta; then the partial score stays at or below theta as well.
   */
  method ScoreRest(entries: seq<TermEntry>, alive: seq<bool>, cache: BlockCache?, p: nat, c: nat, s: Scoring,
                   essential: real, earlyExit: bool, theta: real, tbs: seq<real>, ghost end: nat)
    returns (alive': seq<bool>, score: real)
    requires p <= |entries| && Scored(entries, alive, p, |entries|, c) && Apart(entries, cache) && CacheOk(cache)
    requires AllDominated(entries, s) && c < |s.docLens|
    requires essential == SumC(entries, s, c, |entries|) - SumC(entries, s, c, p)
    requires |tbs| == |entries|
    requires earlyExit ==> c <= end && AllCover(entries, s, c, tbs, end)
    requires earlyExit ==> forall i :: 0 <= i < p && !alive[i] ==> tbs[i] == 0.0
    modifies Footprint(entries, cache)
    ensures Scored(entries, alive', p, |entries|, c) && CacheOk(cache)
    ensures score == Full(entries, s, c) || (earlyExit && score <= theta && Full(entries, s, c) <= theta)
  {
    hide Tracks, Apart, Footprint, AllTrack, Ahead, CacheOk, AllDominated, AllCover, Contribution;
    alive', score := alive, essential;
    var rest := 0.0;
    if earlyExit {
      for i := 0 to p
        invariant rest == Sum(tbs, i)
      {
        rest := rest + tbs[i];
      }
    }
    var i := p;
    while i > 0
      invariant 0 <= i <= p && Scored(entries, alive', p, |entries|, c) && CacheOk(cache)
      invariant score == SumC(entries, s, c, |entries|) - SumC(entries, s, c, i)
      invariant alive'[..i] == alive[..i]
      invariant earlyExit ==> rest == Sum(tbs, i)
    {
      i := i - 1;
      assert alive'[i] == alive[i];
      if !alive'[i] {
        GoneAt(entries, alive', p, i, c, s);
        continue;
      }
      if earlyExit && score + rest * MARGIN <= theta {
        CannotBeat(entries, s, c, tbs, end, i + 1, score, theta);
        return;
      }
      rest := rest - tbs[i];
      var ok, add := ScoreOther(entries, alive', cache, p, i, c, s);
      alive' := alive'[i := ok];
      score := score + add;
    }
  }
}
