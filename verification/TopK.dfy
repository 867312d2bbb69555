/** What an exact top-K answer is, and that its scores are determined by the exhaustive scores. */
module TopK {
  import opened Collections

  /** Docs a before b when a scores higher; ties in any order. */
  ghost predicate Descending(docs: seq<nat>, full: nat -> real) {
    forall i, j :: 0 <= i < j < |docs| ==> full(docs[i]) >= full(docs[j])
  }

  /** docs ranks k of the matching documents, or all of them, and leaves out none that scores higher. */
  ghost predicate IsTopK(docs: seq<nat>, full: nat -> real, matching: set<nat>, k: nat) {
    && |docs| == (if k < |matching| then k else |matching|)
    && Distinct(docs) && Descending(docs, full)
    && (forall i :: 0 <= i < |docs| ==> docs[i] in matching)
    && (forall d, i :: d in matching && d !in docs && 0 <= i < |docs| ==> full(d) <= full(docs[i]))
  }

  function Elements(docs: seq<nat>): set<nat> { set d | d in docs }

  lemma {:induction false} DistinctCount(docs: seq<nat>)
    requires Distinct(docs)
    ensures |Elements(docs)| == |docs|
  {
    if docs != [] {
      var init, last := docs[..|docs| - 1], docs[|docs| - 1];
      DistinctCount(init);
      assert Elements(docs) == Elements(init) + {last};
    }
  }

  /** Two exact answers have the same score at every rank. */
  lemma ScoresAreDetermined(a: seq<nat>, b: seq<nat>, full: nat -> real, matching: set<nat>, k: nat)
    requires IsTopK(a, full, matching, k) && IsTopK(b, full, matching, k)
    ensures |a| == |b| && forall i :: 0 <= i < |a| ==> full(a[i]) == full(b[i])
  {
    forall i | 0 <= i < |a| ensures full(a[i]) == full(b[i]) {
      if full(a[i]) > full(b[i]) { NotAbove(a, b, full, matching, k, i); }
      if full(b[i]) > full(a[i]) { NotAbove(b, a, full, matching, k, i); }
    }
  }

  lemma AtLeast(a: seq<nat>, full: nat -> real, j: nat, i: nat)
    requires Descending(a, full) && j <= i < |a|
    ensures full(a[j]) >= full(a[i])
  {
  }

  lemma HigherIsEarlier(a: seq<nat>, full: nat -> real, j: nat, i: nat)
    requires Descending(a, full) && j < |a| && i < |a| && full(a[j]) > full(a[i])
    ensures j < i
  {
  }

  /** A matching document that outscores rank i of an exact answer is ranked before it. */
  lemma ScoresEarlier(b: seq<nat>, full: nat -> real, matching: set<nat>, k: nat, d: nat, i: nat)
    requires IsTopK(b, full, matching, k) && i < |b| && d in matching && full(d) > full(b[i])
    ensures d in b[..i]
  {
    var m :| 0 <= m < |b| && b[m] == d;
    HigherIsEarlier(b, full, m, i);
  }

  /** i + 1 documents of a would have to fit in the first i places of b. */
  lemma NotAbove(a: seq<nat>, b: seq<nat>, full: nat -> real, matching: set<nat>, k: nat, i: nat)
    requires IsTopK(a, full, matching, k) && IsTopK(b, full, matching, k) && i < |a|
    ensures full(a[i]) <= full(b[i])
  {
    if full(a[i]) > full(b[i]) {
      var high, low := a[..i + 1], b[..i];
      forall d | d in high ensures d in low {
        var j :| 0 <= j <= i && a[j] == d;
        AtLeast(a, full, j, i);
        ScoresEarlier(b, full, matching, k, d, i);
      }
      DistinctCount(high);
      DistinctCount(low);
      SubsetCount(Elements(high), Elements(low));
    }
  }

  // ----- the exhaustive answer

  function InsertByScore(d: nat, docs: seq<nat>, full: nat -> real): seq<nat> {
    if docs == [] then [d]
    else if full(d) >= full(docs[0]) then [d] + docs
    else [docs[0]] + InsertByScore(d, docs[1..], full)
  }

  /** All documents scored and sorted, best first. */
  function Rank(docs: seq<nat>, full: nat -> real): seq<nat> {
    if docs == [] then [] else InsertByScore(docs[0], Rank(docs[1..], full), full)
  }

  /** Exhaustive search: score everything, sort, keep k. */
  function Exhaustive(docs: seq<nat>, full: nat -> real, k: nat): seq<nat> {
    var ranked := Rank(docs, full);
    if k < |ranked| then ranked[..k] else ranked
  }

  lemma {:induction false} InsertBag(d: nat, docs: seq<nat>, full: nat -> real)
    ensures multiset(InsertByScore(d, docs, full)) == multiset(docs) + multiset{d}
  {
    if docs != [] {
      InsertBag(d, docs[1..], full);
      assert docs == [docs[0]] + docs[1..];
    }
  }

  lemma {:induction false} InsertDescending(d: nat, docs: seq<nat>, full: nat -> real)
    requires Descending(docs, full)
    ensures Descending(InsertByScore(d, docs, full), full)
  {
    if docs != [] && full(d) < full(docs[0]) {
      InsertDescending(d, docs[1..], full);
      InsertBag(d, docs[1..], full);
      var t := InsertByScore(d, docs[1..], full);
      forall j | 0 <= j < |t| ensures full(docs[0]) >= full(t[j]) {
        assert t[j] in multiset(t);
        assert t[j] == d || t[j] in docs[1..];
      }
    }
  }

  lemma {:induction false} RankFacts(docs: seq<nat>, full: nat -> real)
    ensures Descending(Rank(docs, full), full) && multiset(Rank(docs, full)) == multiset(docs)
  {
    if docs != [] {
      RankFacts(docs[1..], full);
      InsertDescending(docs[0], Rank(docs[1..], full), full);
      InsertBag(docs[0], Rank(docs[1..], full), full);
      assert docs == [docs[0]] + docs[1..];
    }
  }

  lemma DistinctBag(a: seq<nat>, b: seq<nat>)
    requires Distinct(a) && multiset(a) == multiset(b)
    ensures Distinct(b) && |a| == |b| && Elements(a) == Elements(b)
  {
    forall d ensures d in a <==> d in b {
      assert d in a <==> d in multiset(a);
      assert d in b <==> d in multiset(b);
    }
    assert Elements(a) == Elements(b);
    assert |multiset(a)| == |a| && |multiset(b)| == |b|;
    DistinctCount(a);
    forall i, j | 0 <= i < j < |b| ensures b[i] != b[j] {
      if b[i] == b[j] { RepeatShrinks(b, i, j); }
    }
  }

  lemma RepeatShrinks(b: seq<nat>, i: nat, j: nat)
    requires i < j < |b| && b[i] == b[j]
    ensures |Elements(b)| < |b|
  {
    var rest := b[..j] + b[j + 1..];
    forall d | d in b ensures d in rest {
      var m :| 0 <= m < |b| && b[m] == d;
      if m == j { assert rest[i] == d; } else if m < j { assert rest[m] == d; } else { assert rest[m - 1] == d; }
    }
    ElementsAtMost(rest);
    SubsetCount(Elements(b), Elements(rest));
  }

  lemma {:induction false} ElementsAtMost(docs: seq<nat>)
    ensures |Elements(docs)| <= |docs|
  {
    if docs != [] {
      var init, last := docs[..|docs| - 1], docs[|docs| - 1];
      ElementsAtMost(init);
      assert Elements(docs) == Elements(init) + {last};
    }
  }

  /** Exhaustive search is an exact answer, so every exact answer has its scores. */
  lemma ExhaustiveIsTopK(docs: seq<nat>, full: nat -> real, k: nat)
    requires Distinct(docs)
    ensures IsTopK(Exhaustive(docs, full, k), full, Elements(docs), k)
  {
    hide Rank, IsTopK, Descending, Elements, Distinct;
    var ranked := Rank(docs, full);
    RankFacts(docs, full);
    DistinctBag(docs, ranked);
    DistinctCount(docs);
    CutIsTopK(ranked, full, k);
  }

  /** The first k of all documents in order are an exact answer. */
  lemma CutIsTopK(ranked: seq<nat>, full: nat -> real, k: nat)
    requires Distinct(ranked) && Descending(ranked, full) && |Elements(ranked)| == |ranked|
    ensures IsTopK(if k < |ranked| then ranked[..k] else ranked, full, Elements(ranked), k)
  {
    var top := if k < |ranked| then ranked[..k] else ranked;
    assert forall i :: 0 <= i < |top| ==> top[i] == ranked[i];
    forall d, i | d in Elements(ranked) && d !in top && 0 <= i < |top| ensures full(d) <= full(top[i]) {
      var m :| 0 <= m < |ranked| && ranked[m] == d;
      BeyondTop(ranked, top, m);
      AtLeast(ranked, full, i, m);
    }
  }

  lemma BeyondTop(ranked: seq<nat>, top: seq<nat>, m: nat)
    requires top <= ranked && m < |ranked| && ranked[m] !in top
    ensures m >= |top|
  {
    assert forall i :: 0 <= i < |top| ==> ranked[i] == top[i] && top[i] in top;
  }
}
