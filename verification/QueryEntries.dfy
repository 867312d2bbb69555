/** From distinct terms to ordered entries (internal/index/maxscore.go), keeping every document's score. */
module QueryEntries {
  import opened Bits
  import opened Options
  import opened PostingFormat
  import opened Skips = SkipList
  import opened Cache = BlockCache
  import opened Iter = PostingIter
  import opened Index = InvertedIndex
  import opened MaxScoreModel
  import opened MaxScorePruning
  import opened MaxScoreSteps
  import opened QueryTerms

  /**
   The domination precondition on the scorer: scores are not negative, and none
   exceeds the stored bound of its term, nor the impact of its block, by more
   than the margin. A zero impact says nothing.
   */
  ghost predicate Bounded(idx: InvertedIndex, lists: seq<seq<Posting>>, scorer: Scorer)
    requires Represents(idx, lists)
  {
    forall o :: 0 <= o < |lists| ==> TermBounded(idx, lists, scorer, o)
  }

  ghost predicate TermBounded(idx: InvertedIndex, lists: seq<seq<Posting>>, scorer: Scorer, o: nat)
    requires Represents(idx, lists) && o < |lists|
  {
    && idx.ub[o] >= 0.0
    && (forall j {:trigger PostingScore(idx, lists, scorer, o, j)} :: 0 <= j < |lists[o]| ==>
          0.0 <= PostingScore(idx, lists, scorer, o, j) <= idx.ub[o] * MARGIN)
    && (idx.skipLists[o].Some? ==>
          var impacts := idx.skipLists[o].value.l0Impact;
          && |impacts| == FullBlocks(lists[o]) && (forall b :: 0 <= b < |impacts| ==> impacts[b] >= 0.0)
          && (forall j {:trigger PostingScore(idx, lists, scorer, o, j)} :: 0 <= j < 128 * |impacts| ==>
                impacts[j / 128] == 0.0 || PostingScore(idx, lists, scorer, o, j) <= impacts[j / 128] * MARGIN))
  }

  /** e is the entry of term t with weight w. */
  ghost predicate EntryFor(idx: InvertedIndex, lists: seq<seq<Posting>>, scorer: Scorer, t: gostring, w: real, e: TermEntry)
    requires Represents(idx, lists)
  {
    && t in idx.termIndex && e.iter.list == lists[idx.termIndex[t]] && e.iter.skip == idx.skipLists[idx.termIndex[t]]
    && e.ub == Weigh(w, idx.ub[idx.termIndex[t]]) && e.idf == scorer.idf(|e.iter.list|, idx.N) && e.qtf == w
  }

  lemma EntryContribution(idx: InvertedIndex, lists: seq<seq<Posting>>, scorer: Scorer, t: gostring, w: real, e: TermEntry, d: nat)
    requires Represents(idx, lists) && EntryFor(idx, lists, scorer, t, w, e)
    ensures Contribution(e, ScoringOf(idx, scorer), d) == Weigh(w, TokenScore(idx, lists, scorer, t, d))
  {
    hide TermStored, Weigh, InvertedIndex.DocLens;
    var o := idx.termIndex[t];
    var j := FirstReaching(lists[o], 0, d);
    if j < |lists[o]| && lists[o][j].doc == d {
      assert Weighted(e, ScoringOf(idx, scorer), j) == Weigh(w, PostingScore(idx, lists, scorer, o, j));
    } else {
      WeighNothing(w);
    }
  }

  lemma WeighNothing(w: real)
    ensures Weigh(w, 0.0) == 0.0
  {
  }

  lemma WeighMono(w: real, x: real, y: real)
    requires w >= 0.0 && x <= y * MARGIN
    ensures Weigh(w, x) <= Weigh(w, y) * MARGIN
  {
    var gap := y * MARGIN - x;
    assert w * gap >= 0.0;
  }

  lemma EntryDominated(idx: InvertedIndex, lists: seq<seq<Posting>>, scorer: Scorer, t: gostring, w: real, e: TermEntry)
    requires Represents(idx, lists) && EntryFor(idx, lists, scorer, t, w, e) && w >= 0.0 && e.iter.Fixed()
    requires Bounded(idx, lists, scorer)
    ensures Dominated(e, ScoringOf(idx, scorer))
  {
    hide TermStored, Weigh, EncodeList, Describes, DecodedBlock, Bounded, TermBounded;
    var o := idx.termIndex[t];
    var s := ScoringOf(idx, scorer);
    forall j | 0 <= j < |lists[o]| ensures 0.0 <= Weighted(e, s, j) <= e.ub * MARGIN {
      PostingDominated(idx, lists, scorer, o, w, j);
    }
    BoundsNonNegative(idx, lists, scorer, o, w);
    if e.iter.skip.Some? {
      forall j | 0 <= j < 128 * FullBlocks(lists[o])
        ensures e.iter.skip.value.l0Impact[j / 128] == 0.0 || Weighted(e, s, j) <= BlockBound(e, j / 128) * MARGIN
      {
        PostingInBlock(idx, lists, scorer, o, w, j);
      }
    }
  }

  lemma BoundsNonNegative(idx: InvertedIndex, lists: seq<seq<Posting>>, scorer: Scorer, o: nat, w: real)
    requires Represents(idx, lists) && Bounded(idx, lists, scorer) && o < |lists| && w >= 0.0
    ensures Weigh(w, idx.ub[o]) >= 0.0
    ensures idx.skipLists[o].Some? ==>
              var impacts := idx.skipLists[o].value.l0Impact;
              |impacts| == FullBlocks(lists[o])
              && forall b {:trigger impacts[b]} :: 0 <= b < |impacts| ==> Weigh(w, impacts[b]) >= 0.0
  {
    hide TermStored, PostingScore;
    assert TermBounded(idx, lists, scorer, o);
    WeighNonNegative(w, idx.ub[o]);
    if idx.skipLists[o].Some? {
      var impacts := idx.skipLists[o].value.l0Impact;
      forall b {:trigger impacts[b]} | 0 <= b < |impacts| ensures Weigh(w, impacts[b]) >= 0.0 {
        WeighNonNegative(w, impacts[b]);
      }
    }
  }

  lemma WeighNonNegative(w: real, x: real)
    requires w >= 0.0 && x >= 0.0
    ensures Weigh(w, x) >= 0.0
  {
  }

  lemma PostingDominated(idx: InvertedIndex, lists: seq<seq<Posting>>, scorer: Scorer, o: nat, w: real, j: nat)
    requires Represents(idx, lists) && Bounded(idx, lists, scorer) && o < |lists| && w >= 0.0 && j < |lists[o]|
    ensures 0.0 <= Weigh(w, PostingScore(idx, lists, scorer, o, j)) <= Weigh(w, idx.ub[o]) * MARGIN
  {
    hide TermStored, PostingScore, Weigh;
    assert TermBounded(idx, lists, scorer, o);
    WeighNonNegative(w, PostingScore(idx, lists, scorer, o, j));
    WeighMono(w, PostingScore(idx, lists, scorer, o, j), idx.ub[o]);
  }

  lemma PostingInBlock(idx: InvertedIndex, lists: seq<seq<Posting>>, scorer: Scorer, o: nat, w: real, j: nat)
    requires Represents(idx, lists) && Bounded(idx, lists, scorer) && o < |lists| && w >= 0.0
    requires j < 128 * FullBlocks(lists[o]) && idx.skipLists[o].Some?
    ensures var impacts := idx.skipLists[o].value.l0Impact;
            j / 128 < |impacts|
            && (impacts[j / 128] == 0.0
                || Weigh(w, PostingScore(idx, lists, scorer, o, j)) <= Weigh(w, impacts[j / 128]) * MARGIN)
  {
    hide TermStored, PostingScore, Weigh;
    assert TermBounded(idx, lists, scorer, o);
    var impact := idx.skipLists[o].value.l0Impact[j / 128];
    if impact != 0.0 {
      WeighMono(w, PostingScore(idx, lists, scorer, o, j), impact);
    }
  }

  // ----- building the entries

  /** entries are those of terms, in order. */
  ghost predicate EntriesFor(idx: InvertedIndex, lists: seq<seq<Posting>>, scorer: Scorer, terms: seq<gostring>, qtf: map<gostring, nat>,
                             entries: seq<TermEntry>)
    requires Represents(idx, lists)
  {
    && |terms| == |entries|
    && forall i :: 0 <= i < |terms| ==> terms[i] in qtf && EntryFor(idx, lists, scorer, terms[i], qtf[terms[i]] as real, entries[i])
  }

  /** Entries over separate iterators that have not moved yet. */
  ghost predicate Ready(entries: seq<TermEntry>, cache: BlockCache?)
    reads Footprint(entries, null)
  {
    && Apart(entries, cache)
    && forall i :: 0 <= i < |entries| ==>
         entries[i].iter.Valid() && entries[i].iter.read == 0 && entries[i].iter.shallowIdx == 0
  }

  /** The distinct terms that the index has. */
  ghost function Known(idx: InvertedIndex, unique: seq<gostring>): (known: seq<gostring>)
    ensures forall t :: t in known <==> t in unique && t in idx.termIndex
  {
    if unique == [] then [] else
      var t := unique[|unique| - 1];
      var init := Known(idx, unique[..|unique| - 1]);
      if t in idx.termIndex then init + [t] else init
  }

  /** An entry per term the index has. */
  method MakeEntries(idx: InvertedIndex, scorer: Scorer, cache: BlockCache?, unique: seq<gostring>, qtf: map<gostring, nat>,
                     ghost lists: seq<seq<Posting>>)
    returns (entries: seq<TermEntry>)
    requires Represents(idx, lists) && CacheAgrees(cache, lists)
    requires forall i :: 0 <= i < |unique| ==> unique[i] in qtf
    ensures EntriesFor(idx, lists, scorer, Known(idx, unique), qtf, entries) && Ready(entries, cache)
    ensures forall i :: 0 <= i < |entries| ==>
              fresh(entries[i].iter) && fresh(entries[i].iter.docBuf) && fresh(entries[i].iter.tfBuf)
  {
    hide Represents, CacheAgrees, EntriesFor, PostingIter.Valid, Known;
    entries := [];
    NoEntries(idx, lists, scorer, qtf);
    for i := 0 to |unique|
      invariant EntriesFor(idx, lists, scorer, Known(idx, unique[..i]), qtf, entries) && Ready(entries, cache)
      invariant forall i :: 0 <= i < |entries| ==>
                  fresh(entries[i].iter) && fresh(entries[i].iter.docBuf) && fresh(entries[i].iter.tfBuf)
    {
      var e := MakeEntry(idx, scorer, cache, unique[i], qtf[unique[i]], lists);
      AddEntry(idx, lists, scorer, unique, qtf, entries, i, e);
      if e.Some? {
        entries := entries + [e.value];
      }
    }
    assert unique[..|unique|] == unique;
  }

  lemma NoEntries(idx: InvertedIndex, lists: seq<seq<Posting>>, scorer: Scorer, qtf: map<gostring, nat>)
    requires Represents(idx, lists)
    ensures EntriesFor(idx, lists, scorer, Known(idx, []), qtf, [])
  {
    hide Represents;
  }

  lemma AddEntry(idx: InvertedIndex, lists: seq<seq<Posting>>, scorer: Scorer, unique: seq<gostring>, qtf: map<gostring, nat>,
                 entries: seq<TermEntry>, i: nat, e: Option<TermEntry>)
    requires Represents(idx, lists) && i < |unique| && unique[i] in qtf
    requires EntriesFor(idx, lists, scorer, Known(idx, unique[..i]), qtf, entries)
    requires e.Some? == (unique[i] in idx.termIndex)
    requires e.Some? ==> EntryFor(idx, lists, scorer, unique[i], qtf[unique[i]] as real, e.value)
    ensures EntriesFor(idx, lists, scorer, Known(idx, unique[..i + 1]), qtf, if e.Some? then entries + [e.value] else entries)
  {
    hide Represents, EntryFor;
    assert unique[..i + 1][..i] == unique[..i];
  }

  method MakeEntry(idx: InvertedIndex, scorer: Scorer, cache: BlockCache?, t: gostring, count: nat, ghost lists: seq<seq<Posting>>)
    returns (e: Option<TermEntry>)
    requires Represents(idx, lists) && CacheAgrees(cache, lists)
    ensures e.Some? == (t in idx.termIndex)
    ensures e.Some? ==>
              var i := e.value.iter;
              && i.Valid() && fresh(i) && fresh(i.docBuf) && fresh(i.tfBuf) && i.read == 0 && i.shallowIdx == 0
              && i.blockCache == cache && EntryFor(idx, lists, scorer, t, count as real, e.value)
  {
    hide CacheAgrees, PostingIter.Valid, EncodeList, Describes;
    var iter := Iterator(idx, cache, t, lists);
    if iter.None? {
      return None;
    }
    var df := idx.DF(t);
    assert TermStored(idx, idx.termIndex[t], lists[idx.termIndex[t]]);
    var w := count as real;
    e := Some(TermEntry(iter.value, Weigh(w, idx.TermUB(t)), scorer.idf(df, idx.N), w));
  }

  // ----- scores and matches do not depend on the representation

  lemma {:induction false} EntriesScore(idx: InvertedIndex, lists: seq<seq<Posting>>, scorer: Scorer, unique: seq<gostring>,
                                        qtf: map<gostring, nat>, entries: seq<TermEntry>, d: nat)
    requires Represents(idx, lists) && EntriesFor(idx, lists, scorer, Known(idx, unique), qtf, entries)
    requires forall i :: 0 <= i < |unique| ==> unique[i] in qtf
    ensures Full(entries, ScoringOf(idx, scorer), d) == WeightedScore(idx, lists, scorer, unique, qtf, d)
  {
    hide Represents, EntryFor, Contribution, Weigh, TokenScore;
    if unique != [] {
      var last := |unique| - 1;
      var t, init := unique[last], unique[..last];
      if t in idx.termIndex {
        var n := |entries| - 1;
        assert Known(idx, unique)[..n] == Known(idx, init) && Known(idx, unique)[n] == t;
        EntriesScore(idx, lists, scorer, init, qtf, entries[..n], d);
        SumCPrefix(entries[..n], entries, ScoringOf(idx, scorer), d, n);
        EntryContribution(idx, lists, scorer, t, qtf[t] as real, entries[n], d);
      } else {
        EntriesScore(idx, lists, scorer, init, qtf, entries, d);
        UnknownScore(idx, lists, scorer, t, d);
        WeighNothing(qtf[t] as real);
      }
    }
  }

  lemma UnknownScore(idx: InvertedIndex, lists: seq<seq<Posting>>, scorer: Scorer, t: gostring, d: nat)
    requires Represents(idx, lists) && t !in idx.termIndex
    ensures TokenScore(idx, lists, scorer, t, d) == 0.0
  {
  }

  lemma {:induction false} SumCPrefix(a: seq<TermEntry>, b: seq<TermEntry>, s: Scoring, d: nat, n: nat)
    requires n <= |a| && n <= |b| && a[..n] == b[..n]
    ensures SumC(a, s, d, n) == SumC(b, s, d, n)
  {
    hide Contribution;
    if n > 0 {
      assert a[n - 1] == a[..n][n - 1] == b[..n][n - 1] == b[n - 1];
      assert a[..n - 1] == a[..n][..n - 1] == b[..n][..n - 1] == b[..n - 1];
      SumCPrefix(a, b, s, d, n - 1);
    }
  }

  lemma EntriesMatch(idx: InvertedIndex, lists: seq<seq<Posting>>, scorer: Scorer, tokens: seq<gostring>, unique: seq<gostring>,
                     qtf: map<gostring, nat>, entries: seq<TermEntry>, d: nat)
    requires Represents(idx, lists) && EntriesFor(idx, lists, scorer, Known(idx, unique), qtf, entries)
    requires Collapsed(tokens, unique, qtf)
    ensures Matches(entries, d) <==> Hit(idx, lists, tokens, d)
  {
    hide TermStored, InList, EntriesFor;
    if Matches(entries, d) {
      var i :| 0 <= i < |entries| && InList(entries[i].iter.list, d);
      TokenOf(idx, lists, scorer, tokens, unique, qtf, entries, i);
    }
    if Hit(idx, lists, tokens, d) {
      var j :| 0 <= j < |tokens| && tokens[j] in idx.termIndex && InList(lists[idx.termIndex[tokens[j]]], d);
      EntryOf(idx, lists, scorer, tokens, unique, qtf, entries, j);
    }
  }

  lemma TokenOf(idx: InvertedIndex, lists: seq<seq<Posting>>, scorer: Scorer, tokens: seq<gostring>, unique: seq<gostring>,
                qtf: map<gostring, nat>, entries: seq<TermEntry>, i: nat)
    requires Represents(idx, lists) && EntriesFor(idx, lists, scorer, Known(idx, unique), qtf, entries)
    requires Collapsed(tokens, unique, qtf) && i < |entries|
    ensures exists j :: 0 <= j < |tokens| && tokens[j] in idx.termIndex && lists[idx.termIndex[tokens[j]]] == entries[i].iter.list
  {
    hide TermStored;
    var t := Known(idx, unique)[i];
    assert t in unique;
    var k :| 0 <= k < |unique| && unique[k] == t;
    assert unique[k] in tokens;
    var j :| 0 <= j < |tokens| && tokens[j] == t;
  }

  lemma EntryOf(idx: InvertedIndex, lists: seq<seq<Posting>>, scorer: Scorer, tokens: seq<gostring>, unique: seq<gostring>,
                qtf: map<gostring, nat>, entries: seq<TermEntry>, j: nat)
    requires Represents(idx, lists) && EntriesFor(idx, lists, scorer, Known(idx, unique), qtf, entries)
    requires Collapsed(tokens, unique, qtf) && j < |tokens| && tokens[j] in idx.termIndex
    ensures exists i :: 0 <= i < |entries| && entries[i].iter.list == lists[idx.termIndex[tokens[j]]]
  {
    hide TermStored;
    var known := Known(idx, unique);
    assert tokens[j] in qtf && tokens[j] in unique && tokens[j] in known;
    var i :| 0 <= i < |known| && known[i] == tokens[j];
    assert EntryFor(idx, lists, scorer, known[i], qtf[known[i]] as real, entries[i]);
  }

  // ----- ordering by bound

  /** perm tells where each entry of b came from. */
  ghost predicate Permutes(perm: seq<nat>, a: seq<TermEntry>, b: seq<TermEntry>) {
    && |perm| == |a| == |b|
    && (forall i :: 0 <= i < |perm| ==> perm[i] < |a| && b[i] == a[perm[i]])
    && (forall i, j :: 0 <= i < j < |perm| ==> perm[i] != perm[j])
  }

  ghost predicate ByBound(entries: seq<TermEntry>) {
    forall i, j :: 0 <= i < j < |entries| ==> entries[i].ub <= entries[j].ub
  }

  /** sort.Slice by ascending bound; the order of equal bounds is the library's choice. */
  method SortByBound(entries: seq<TermEntry>) returns (sorted: seq<TermEntry>, ghost perm: seq<nat>)
    ensures Permutes(perm, entries, sorted) && multiset(sorted) == multiset(entries) && ByBound(sorted)
  {
    sorted, perm := [], [];
    for n := 0 to |entries|
      invariant Permutes(perm, entries[..n], sorted) && multiset(sorted) == multiset(entries[..n]) && ByBound(sorted)
    {
      hide Permutes, ByBound;
      assert entries[..n + 1] == entries[..n] + [entries[n]];
      sorted, perm := Insert(entries[..n], entries[n], sorted, perm);
    }
    assert entries[..|entries|] == entries;
  }

  method Insert(ghost a: seq<TermEntry>, e: TermEntry, b: seq<TermEntry>, ghost perm: seq<nat>)
    returns (sorted: seq<TermEntry>, ghost perm': seq<nat>)
    requires Permutes(perm, a, b) && multiset(b) == multiset(a) && ByBound(b)
    ensures Permutes(perm', a + [e], sorted) && multiset(sorted) == multiset(a + [e]) && ByBound(sorted)
  {
    var at := Place(e, b);
    sorted := b[..at] + [e] + b[at..];
    perm' := perm[..at] + [|a|] + perm[at..];
    hide Permutes, ByBound;
    PermInsert(a, e, b, perm, at);
    BagInsert(a, e, b, at);
    OrderInsert(e, b, at);
  }

  method Place(e: TermEntry, b: seq<TermEntry>) returns (at: nat)
    ensures at <= |b| && (forall i :: at <= i < |b| ==> b[i].ub > e.ub) && (at > 0 ==> b[at - 1].ub <= e.ub)
  {
    at := |b|;
    while at > 0 && b[at - 1].ub > e.ub
      invariant 0 <= at <= |b|
      invariant forall i :: at <= i < |b| ==> b[i].ub > e.ub
    {
      at := at - 1;
    }
  }

  lemma BagInsert(a: seq<TermEntry>, e: TermEntry, b: seq<TermEntry>, at: nat)
    requires multiset(b) == multiset(a) && at <= |b|
    ensures multiset(b[..at] + [e] + b[at..]) == multiset(a + [e])
  {
    assert b == b[..at] + b[at..];
  }

  lemma OrderInsert(e: TermEntry, b: seq<TermEntry>, at: nat)
    requires ByBound(b) && at <= |b|
    requires (forall i :: at <= i < |b| ==> b[i].ub > e.ub) && (at > 0 ==> b[at - 1].ub <= e.ub)
    ensures ByBound(b[..at] + [e] + b[at..])
  {
  }

  lemma PermInsert(a: seq<TermEntry>, e: TermEntry, b: seq<TermEntry>, perm: seq<nat>, at: nat)
    requires Permutes(perm, a, b) && at <= |b|
    ensures Permutes(perm[..at] + [|a|] + perm[at..], a + [e], b[..at] + [e] + b[at..])
  {
  }

  lemma {:induction false} SumCRemove(a: seq<TermEntry>, s: Scoring, d: nat, i: nat)
    requires i < |a|
    ensures Full(a, s, d) == Full(a[..i] + a[i + 1..], s, d) + Contribution(a[i], s, d)
    decreases |a|
  {
    hide Contribution;
    var n := |a| - 1;
    var rest := a[..i] + a[i + 1..];
    SumCPrefix(a, a[..n], s, d, n);
    if i == n {
      assert rest == a[..n];
    } else {
      SumCRemove(a[..n], s, d, i);
      var rest' := a[..n][..i] + a[..n][i + 1..];
      assert rest[..n - 1] == rest' && rest[n - 1] == a[n];
      SumCPrefix(rest, rest', s, d, n - 1);
    }
  }

  lemma RemoveBag(a: seq<TermEntry>, i: nat)
    requires i < |a|
    ensures multiset(a) == multiset(a[..i] + a[i + 1..]) + multiset{a[i]}
  {
    assert a == a[..i] + [a[i]] + a[i + 1..];
  }

  lemma SameRest(a: seq<TermEntry>, b: seq<TermEntry>, i: nat)
    requires multiset(a) == multiset(b) && a != [] && i < |b| && b[i] == a[0]
    ensures multiset(a[..0] + a[1..]) == multiset(b[..i] + b[i + 1..])
  {
    RemoveBag(a, 0);
    RemoveBag(b, i);
    assert multiset(a[..0] + a[1..]) == multiset(a) - multiset{a[0]};
    assert multiset(b[..i] + b[i + 1..]) == multiset(b) - multiset{a[0]};
  }

  /** The exhaustive score does not depend on the order of the entries. */
  lemma {:induction false} FullPermuted(a: seq<TermEntry>, b: seq<TermEntry>, s: Scoring, d: nat)
    requires multiset(a) == multiset(b)
    ensures Full(a, s, d) == Full(b, s, d)
    decreases |a|
  {
    hide Contribution, SumC;
    assert |multiset(a)| == |a| && |multiset(b)| == |b|;
    if a != [] {
      var x := a[0];
      assert x in multiset(b);
      assert x in b;
      var i :| 0 <= i < |b| && b[i] == x;
      SameRest(a, b, i);
      FullPermuted(a[..0] + a[1..], b[..i] + b[i + 1..], s, d);
      SumCRemove(a, s, d, 0);
      SumCRemove(b, s, d, i);
    } else {
      assert b == [];
    }
  }

  lemma MatchesPermuted(a: seq<TermEntry>, b: seq<TermEntry>, d: nat)
    requires multiset(a) == multiset(b)
    ensures Matches(a, d) <==> Matches(b, d)
  {
    hide InList;
    if Matches(a, d) {
      var i :| 0 <= i < |a| && InList(a[i].iter.list, d);
      assert a[i] in multiset(b);
      assert a[i] in b;
    }
    if Matches(b, d) {
      var i :| 0 <= i < |b| && InList(b[i].iter.list, d);
      assert b[i] in multiset(a);
      assert b[i] in a;
    }
  }
}
