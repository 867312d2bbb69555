/**
 The facts block-max MaxScore relies on (internal/index/maxscore.go): what one
 query term contributes to a document, and what its stored bounds promise.
 Scores and bounds are reals.
 */
module MaxScoreModel {
  import opened Options
  import opened PostingFormat
  import opened Skips = SkipList
  import opened BlockCache
  import opened Iter = PostingIter

  /** 1 + 1e-6: the margin by which every stored bound is inflated before it is trusted. */
  const MARGIN: real := 1.000001

  /** What a scorer needs besides the posting: ScoreWithIDF, the document lengths and their average. */
  datatype Scoring = Scoring(score: (nat, real, nat, real) -> real, docLens: seq<nat>, avgDocLen: real)

  /** Per-term state. ub is the term's stored upper bound weighted by qtf, its frequency in the query. */
  datatype TermEntry = TermEntry(iter: PostingIter, ub: real, idf: real, qtf: real)

  ghost predicate InList(ps: seq<Posting>, d: nat) {
    exists j :: 0 <= j < |ps| && ps[j].doc == d
  }

  /** A score or bound, weighted by the term's frequency in the query. */
  function Weigh(qtf: real, x: real): real { qtf * x }

  /** The weighted score of posting j. */
  ghost function Weighted(e: TermEntry, s: Scoring, j: nat): real
    requires j < |e.iter.list| && e.iter.list[j].doc < |s.docLens|
  {
    Weigh(e.qtf, s.score(e.iter.list[j].tf, e.idf, s.docLens[e.iter.list[j].doc], s.avgDocLen))
  }

  /** The term's contribution to document d: 0 when d does not contain it. */
  ghost function Contribution(e: TermEntry, s: Scoring, d: nat): real {
    var j := FirstReaching(e.iter.list, 0, d);
    if j < |e.iter.list| && e.iter.list[j].doc == d && d < |s.docLens| then Weighted(e, s, j) else 0.0
  }

  ghost function BlockBound(e: TermEntry, b: nat): real
    requires e.iter.skip.Some? && b < |e.iter.skip.value.l0Impact|
  {
    Weigh(e.qtf, e.iter.skip.value.l0Impact[b])
  }

  /**
   The domination precondition: no posting scores above the term's bound, nor
   above its block's impact when there is one, by more than the margin.
   */
  ghost predicate Dominated(e: TermEntry, s: Scoring) {
    && e.iter.Fixed() && e.ub >= 0.0
    && (forall j :: 0 <= j < |e.iter.list| ==> e.iter.list[j].doc < |s.docLens| < 0x1_0000_0000)
    && (forall j {:trigger Weighted(e, s, j)} :: 0 <= j < |e.iter.list| ==> 0.0 <= Weighted(e, s, j) <= e.ub * MARGIN)
    && (e.iter.skip.Some? ==>
          && (forall b {:trigger BlockBound(e, b)} :: 0 <= b < FullBlocks(e.iter.list) ==> BlockBound(e, b) >= 0.0)
          && (forall j {:trigger Weighted(e, s, j)} :: 0 <= j < 128 * FullBlocks(e.iter.list) ==>
                e.iter.skip.value.l0Impact[j / 128] == 0.0 || Weighted(e, s, j) <= BlockBound(e, j / 128) * MARGIN))
  }

  lemma ListIndex(ps: seq<Posting>, d: nat)
    requires ValidList(ps) && InList(ps, d)
    ensures var j := FirstReaching(ps, 0, d); j < |ps| && ps[j].doc == d
  {
  }

  lemma ContributionBounds(e: TermEntry, s: Scoring, d: nat)
    requires Dominated(e, s)
    ensures 0.0 <= Contribution(e, s, d) <= e.ub * MARGIN
    ensures !InList(e.iter.list, d) ==> Contribution(e, s, d) == 0.0
  {
    hide FirstReaching, Weighted, PostingIter.Fixed;
  }

  /** A document that can only lie in block b is bounded by that block's impact. */
  lemma ContributionInBlock(e: TermEntry, s: Scoring, d: nat, b: nat)
    requires Dominated(e, s) && e.iter.skip.Some? && b < FullBlocks(e.iter.list)
    requires e.iter.skip.value.l0Impact[b] != 0.0
    requires forall j :: 0 <= j < |e.iter.list| && e.iter.list[j].doc == d ==> 128 * b <= j < 128 * b + 128
    ensures Contribution(e, s, d) <= BlockBound(e, b) * MARGIN
  {
    hide FirstReaching, Weighted, BlockBound, EncodeList, Blocks, Offset, DecodedBlock, ValidList;
    var j := FirstReaching(e.iter.list, 0, d);
    assert BlockBound(e, b) >= 0.0;
    if j < |e.iter.list| && e.iter.list[j].doc == d && d < |s.docLens| {
      assert j / 128 == b;
      assert Weighted(e, s, j) <= BlockBound(e, j / 128) * MARGIN;
    }
  }

  // ----- sums over the entries

  ghost function SumC(entries: seq<TermEntry>, s: Scoring, d: nat, n: nat): real
    requires n <= |entries|
  {
    if n == 0 then 0.0 else SumC(entries, s, d, n - 1) + Contribution(entries[n - 1], s, d)
  }

  /** The exhaustive score: every term's contribution. */
  ghost function Full(entries: seq<TermEntry>, s: Scoring, d: nat): real {
    SumC(entries, s, d, |entries|)
  }

  ghost function Sum(bs: seq<real>, n: nat): real
    requires n <= |bs|
  {
    if n == 0 then 0.0 else Sum(bs, n - 1) + bs[n - 1]
  }

  ghost predicate AllDominated(entries: seq<TermEntry>, s: Scoring) {
    forall i :: 0 <= i < |entries| ==> Dominated(entries[i], s)
  }

  ghost predicate Matches(entries: seq<TermEntry>, d: nat) {
    exists i :: 0 <= i < |entries| && InList(entries[i].iter.list, d)
  }

  lemma {:induction false} SumCNonNegative(entries: seq<TermEntry>, s: Scoring, d: nat, m: nat, n: nat)
    requires AllDominated(entries, s) && m <= n <= |entries|
    ensures 0.0 <= SumC(entries, s, d, m) <= SumC(entries, s, d, n)
  {
    hide Dominated, Contribution;
    if m < n {
      SumCNonNegative(entries, s, d, m, n - 1);
      ContributionBounds(entries[n - 1], s, d);
    } else if m > 0 {
      SumCNonNegative(entries, s, d, m - 1, m - 1);
      ContributionBounds(entries[m - 1], s, d);
    }
  }

  /** Contributions bounded term by term are bounded in sum. */
  lemma {:induction false} SumCBounded(entries: seq<TermEntry>, s: Scoring, d: nat, bs: seq<real>, n: nat)
    requires n <= |entries| == |bs|
    requires forall i :: 0 <= i < n ==> Contribution(entries[i], s, d) <= bs[i] * MARGIN
    ensures SumC(entries, s, d, n) <= Sum(bs, n) * MARGIN
  {
    hide Contribution;
    if n > 0 { SumCBounded(entries, s, d, bs, n - 1); }
  }

  /** Terms that do not contain d add nothing. */
  lemma {:induction false} SumCTail(entries: seq<TermEntry>, s: Scoring, d: nat, m: nat, n: nat)
    requires AllDominated(entries, s) && m <= n <= |entries|
    requires forall i :: m <= i < n ==> !InList(entries[i].iter.list, d)
    ensures SumC(entries, s, d, n) == SumC(entries, s, d, m)
  {
    hide Dominated, Contribution, InList;
    if m < n {
      SumCTail(entries, s, d, m, n - 1);
      ContributionBounds(entries[n - 1], s, d);
    }
  }
}
