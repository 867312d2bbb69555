/**
 The query side of internal/index/maxscore.go: repeated tokens collapse into
 weights, terms become entries, entries are ordered by bound; none of it changes
 a document's exhaustive score.
 */
module QueryTerms {
  import opened Bits
  import opened Options
  import opened PostingFormat
  import opened Skips = SkipList
  import opened Cache = BlockCache
  import opened Iter = PostingIter
  import opened Index = InvertedIndex
  import opened MaxScoreModel
  import opened MaxScoreSteps

  /** scoring.Scorer: IDF(df, N) and ScoreWithIDF(tf, idf, dl, avgDocLen). */
  datatype Scorer = Scorer(idf: (nat, nat) -> real, withIDF: (nat, real, nat, real) -> real)

  function ScoringOf(idx: InvertedIndex, scorer: Scorer): Scoring {
    Scoring(scorer.withIDF, idx.DocLens(), idx.avgDocLen)
  }

  /** What the scorer gives posting j of the term of ordinal o. */
  ghost function PostingScore(idx: InvertedIndex, lists: seq<seq<Posting>>, scorer: Scorer, o: nat, j: nat): real
    requires o < |lists| && j < |lists[o]| && lists[o][j].doc < idx.N
  {
    scorer.withIDF(lists[o][j].tf, scorer.idf(|lists[o]|, idx.N), idx.DocLens()[lists[o][j].doc], idx.avgDocLen)
  }

  // ----- the exhaustive score

  /** One occurrence of a token adds this much to document d. */
  ghost function TokenScore(idx: InvertedIndex, lists: seq<seq<Posting>>, scorer: Scorer, t: gostring, d: nat): real
    requires Represents(idx, lists)
  {
    if t !in idx.termIndex then 0.0 else
      var o := idx.termIndex[t];
      var j := FirstReaching(lists[o], 0, d);
      if j < |lists[o]| && lists[o][j].doc == d then PostingScore(idx, lists, scorer, o, j) else 0.0
  }

  /** The sum over all tokens, repeats included. */
  ghost function TokensScore(idx: InvertedIndex, lists: seq<seq<Posting>>, scorer: Scorer, tokens: seq<gostring>, d: nat): real
    requires Represents(idx, lists)
  {
    if tokens == [] then 0.0 else
      TokensScore(idx, lists, scorer, tokens[..|tokens| - 1], d) + TokenScore(idx, lists, scorer, tokens[|tokens| - 1], d)
  }

  ghost predicate Hit(idx: InvertedIndex, lists: seq<seq<Posting>>, tokens: seq<gostring>, d: nat)
    requires Represents(idx, lists)
  {
    exists i :: 0 <= i < |tokens| && tokens[i] in idx.termIndex && InList(lists[idx.termIndex[tokens[i]]], d)
  }

  // ----- collapsing repeated tokens

  /** The sum over distinct terms, each weighted. */
  ghost function WeightedScore(idx: InvertedIndex, lists: seq<seq<Posting>>, scorer: Scorer, unique: seq<gostring>, qtf: map<gostring, nat>, d: nat): real
    requires Represents(idx, lists)
    requires forall i :: 0 <= i < |unique| ==> unique[i] in qtf
  {
    if unique == [] then 0.0 else
      var t := unique[|unique| - 1];
      WeightedScore(idx, lists, scorer, unique[..|unique| - 1], qtf, d) + Weigh(qtf[t] as real, TokenScore(idx, lists, scorer, t, d))
  }

  /** unique lists the tokens without repeats and qtf counts them. */
  ghost predicate Collapsed(tokens: seq<gostring>, unique: seq<gostring>, qtf: map<gostring, nat>) {
    && (forall i :: 0 <= i < |unique| ==> unique[i] in qtf && unique[i] in tokens)
    && (forall t :: t in qtf ==> qtf[t] > 0 && t in unique)
    && (forall t :: t in tokens ==> t in qtf)
    && (forall i, j :: 0 <= i < j < |unique| ==> unique[i] != unique[j])
  }

  lemma {:induction false} SameWeights(idx: InvertedIndex, lists: seq<seq<Posting>>, scorer: Scorer, unique: seq<gostring>,
                                       qtf: map<gostring, nat>, qtf': map<gostring, nat>, d: nat)
    requires Represents(idx, lists)
    requires forall i :: 0 <= i < |unique| ==> unique[i] in qtf && unique[i] in qtf' && qtf[unique[i]] == qtf'[unique[i]]
    ensures WeightedScore(idx, lists, scorer, unique, qtf, d) == WeightedScore(idx, lists, scorer, unique, qtf', d)
  {
    hide Represents, TokenScore;
    if unique != [] {
      SameWeights(idx, lists, scorer, unique[..|unique| - 1], qtf, qtf', d);
    }
  }

  /** One more occurrence of a listed term adds its score once more. */
  lemma {:induction false} OneMore(idx: InvertedIndex, lists: seq<seq<Posting>>, scorer: Scorer, unique: seq<gostring>,
                                   qtf: map<gostring, nat>, t: gostring, d: nat)
    requires Represents(idx, lists)
    requires forall i :: 0 <= i < |unique| ==> unique[i] in qtf
    requires forall i, j :: 0 <= i < j < |unique| ==> unique[i] != unique[j]
    requires t in unique && t in qtf
    ensures WeightedScore(idx, lists, scorer, unique, qtf[t := qtf[t] + 1], d)
         == WeightedScore(idx, lists, scorer, unique, qtf, d) + TokenScore(idx, lists, scorer, t, d)
  {
    hide Represents, TokenScore;
    var last := |unique| - 1;
    var init, more := unique[..last], qtf[t := qtf[t] + 1];
    if unique[last] == t {
      SameWeights(idx, lists, scorer, init, qtf, more, d);
      var x := TokenScore(idx, lists, scorer, t, d);
      assert Weigh((qtf[t] + 1) as real, x) == Weigh(qtf[t] as real, x) + x;
    } else {
      assert t in init;
      OneMore(idx, lists, scorer, init, qtf, t, d);
    }
  }

  lemma NewTerm(idx: InvertedIndex, lists: seq<seq<Posting>>, scorer: Scorer, unique: seq<gostring>, qtf: map<gostring, nat>, t: gostring, d: nat)
    requires Represents(idx, lists)
    requires forall i :: 0 <= i < |unique| ==> unique[i] in qtf && unique[i] != t
    ensures WeightedScore(idx, lists, scorer, unique + [t], qtf[t := 1], d)
         == WeightedScore(idx, lists, scorer, unique, qtf, d) + TokenScore(idx, lists, scorer, t, d)
  {
    hide Represents, TokenScore;
    var all := unique + [t];
    assert all[..|all| - 1] == unique;
    SameWeights(idx, lists, scorer, unique, qtf, qtf[t := 1], d);
    assert Weigh(1 as real, TokenScore(idx, lists, scorer, t, d)) == TokenScore(idx, lists, scorer, t, d);
  }

  method Collapse(tokens: seq<gostring>, ghost idx: InvertedIndex, ghost lists: seq<seq<Posting>>, ghost scorer: Scorer)
    returns (unique: seq<gostring>, qtf: map<gostring, nat>)
    requires Represents(idx, lists)
    ensures Collapsed(tokens, unique, qtf)
    ensures forall d :: WeightedScore(idx, lists, scorer, unique, qtf, d) == TokensScore(idx, lists, scorer, tokens, d)
  {
    hide Represents, TokenScore, WeightedScore;
    unique, qtf := [], map[];
    NothingYet(idx, lists, scorer, qtf);
    for i := 0 to |tokens|
      invariant Collapsed(tokens[..i], unique, qtf)
      invariant forall d :: WeightedScore(idx, lists, scorer, unique, qtf, d) == TokensScore(idx, lists, scorer, tokens[..i], d)
    {
      ghost var before, counts := unique, qtf;
      var t := tokens[i];
      if t !in qtf {
        unique := unique + [t];
        qtf := qtf[t := 0];
        forall d { NewTerm(idx, lists, scorer, before, counts, t, d); }
        assert qtf[t := 1] == counts[t := 1];
      } else {
        forall d { OneMore(idx, lists, scorer, before, counts, t, d); }
      }
      qtf := qtf[t := qtf[t] + 1];
      assert tokens[..i + 1][..i] == tokens[..i];
      forall d ensures WeightedScore(idx, lists, scorer, unique, qtf, d) == TokensScore(idx, lists, scorer, tokens[..i + 1], d) {
        AddToken(idx, lists, scorer, tokens, i, d);
      }
    }
    assert tokens[..|tokens|] == tokens;
  }

  lemma NothingYet(idx: InvertedIndex, lists: seq<seq<Posting>>, scorer: Scorer, qtf: map<gostring, nat>)
    requires Represents(idx, lists)
    ensures forall d :: WeightedScore(idx, lists, scorer, [], qtf, d) == TokensScore(idx, lists, scorer, [], d)
  {
    hide Represents, TokenScore;
  }

  lemma AddToken(idx: InvertedIndex, lists: seq<seq<Posting>>, scorer: Scorer, tokens: seq<gostring>, i: nat, d: nat)
    requires Represents(idx, lists) && i < |tokens|
    ensures TokensScore(idx, lists, scorer, tokens[..i + 1], d)
         == TokensScore(idx, lists, scorer, tokens[..i], d) + TokenScore(idx, lists, scorer, tokens[i], d)
  {
    hide Represents, TokenScore;
    assert tokens[..i + 1][..i] == tokens[..i];
  }
}
