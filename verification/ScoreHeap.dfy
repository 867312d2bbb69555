/**
 The top-K min-heap of a search (internal/index/maxscore.go). The library's
 sift operations are represented by Collections.Settle: all the search relies on is that
 the root is a least entry.
 */
module ScoreHeap {
  import opened Bits
  import opened Collections

  datatype HeapEntry = HeapEntry(docNum: nat, score: real)

  datatype ScoredDocument = ScoredDocument(docID: gostring, score: real, rank: nat)

  ghost predicate Ascending(es: seq<HeapEntry>) {
    forall i, j :: 0 <= i < j < |es| ==> es[i].score <= es[j].score
  }

  predicate ScoreLe(a: HeapEntry, b: HeapEntry) { a.score <= b.score }

  class ScoreHeap {
    var es: seq<HeapEntry>

    ghost predicate Valid()
      reads this
    {
      RootLeast(es, ScoreLe)
    }

    constructor ()
      ensures Valid() && es == []
    {
      es := [];
    }

    function Len(): nat
      reads this
    {
      |es|
    }

    /** The threshold: the least score kept, 0 when nothing is. */
    function Min(): (theta: real)
      requires Valid()
      reads this
      ensures es == [] ==> theta == 0.0
      ensures es != [] ==> (exists i :: 0 <= i < |es| && es[i].score == theta) && forall i :: 0 <= i < |es| ==> theta <= es[i].score
    {
      if |es| == 0 then 0.0 else assert es[0].score == es[0].score; es[0].score
    }

    method Push(docNum: nat, score: real)
      requires Valid()
      modifies this
      ensures Valid() && multiset(es) == multiset(old(es)) + multiset{HeapEntry(docNum, score)}
    {
      es := Settle(es + [HeapEntry(docNum, score)], ScoreLe);
    }

    /** The new entry takes the root's place. */
    method ReplaceMin(docNum: nat, score: real)
      requires Valid() && es != []
      modifies this
      ensures Valid() && multiset(es) == multiset(old(es)[0 := HeapEntry(docNum, score)])
    {
      es := Settle(es[0 := HeapEntry(docNum, score)], ScoreLe);
    }

    /** Everything kept, best first, ranked from 1. */
    method Sorted(docID: nat -> gostring) returns (results: seq<ScoredDocument>, ghost order: seq<HeapEntry>)
      requires Valid()
      ensures |results| == |es| && forall i, j :: 0 <= i < j < |results| ==> results[i].score >= results[j].score
      ensures multiset(order) == multiset(es) && |results| == |order|
      ensures forall i, j :: 0 <= i < j < |order| ==> order[i].score >= order[j].score
      ensures forall i :: 0 <= i < |order| ==>
                results[i] == ScoredDocument(docID(order[i].docNum), order[i].score, i + 1)
    {
      var popped := PopAll(es);
      order := seq(|popped|, i requires 0 <= i < |popped| => popped[|popped| - 1 - i]);
      Reversed(popped, order);
      results := Ranked(popped, docID);
    }
  }

  /** Pop until nothing is left: lowest score first. */
  method PopAll(es: seq<HeapEntry>) returns (popped: seq<HeapEntry>)
    requires RootLeast(es, ScoreLe)
    ensures Ascending(popped) && multiset(popped) == multiset(es) && |popped| == |es|
  {
    var tmp := es;
    popped := [];
    while |tmp| > 0
      invariant RootLeast(tmp, ScoreLe) && Ascending(popped) && multiset(popped) + multiset(tmp) == multiset(es)
      invariant |popped| + |tmp| == |es| && Below(popped, tmp)
      decreases |tmp|
    {
      hide Ascending, Below, RootLeast;
      var least, rest := PopLeast(tmp, ScoreLe);
      NextPopped(popped, tmp, least, rest);
      popped, tmp := popped + [least], rest;
    }
  }

  ghost predicate Below(low: seq<HeapEntry>, high: seq<HeapEntry>) {
    forall i, j :: 0 <= i < |low| && 0 <= j < |high| ==> low[i].score <= high[j].score
  }

  lemma NextPopped(popped: seq<HeapEntry>, tmp: seq<HeapEntry>, least: HeapEntry, rest: seq<HeapEntry>)
    requires Ascending(popped) && Below(popped, tmp) && tmp != [] && least == tmp[0]
    requires forall j :: 0 <= j < |rest| ==> rest[j] in tmp && ScoreLe(least, rest[j])
    ensures Ascending(popped + [least]) && Below(popped + [least], rest)
  {
    forall i, j | 0 <= i < |popped| && 0 <= j < |rest| ensures popped[i].score <= rest[j].score {
      var m :| 0 <= m < |tmp| && tmp[m] == rest[j];
    }
  }

  lemma {:induction false} Reversed(a: seq<HeapEntry>, b: seq<HeapEntry>)
    requires |a| == |b| && forall i :: 0 <= i < |a| ==> b[i] == a[|a| - 1 - i]
    ensures multiset(a) == multiset(b)
  {
    if a != [] {
      var last := |a| - 1;
      Reversed(a[..last], b[1..]);
      assert a == a[..last] + [a[last]] && b == [b[0]] + b[1..];
    }
  }

  /** Resolve the documents of an ascending pop order, reverse it in place and number it. */
  method Ranked(popped: seq<HeapEntry>, docID: nat -> gostring) returns (results: seq<ScoredDocument>)
    ensures |results| == |popped|
    ensures forall i :: 0 <= i < |popped| ==>
              var e := popped[|popped| - 1 - i]; results[i] == ScoredDocument(docID(e.docNum), e.score, i + 1)
  {
    var n := |popped|;
    var plain := Resolved(popped, docID);
    var turned := Turned(plain);
    results := turned;
    for i := 0 to n
      invariant |results| == n
      invariant forall k :: 0 <= k < i ==> results[k] == turned[k].(rank := k + 1)
      invariant forall k :: i <= k < n ==> results[k] == turned[k]
    {
      results := results[i := results[i].(rank := i + 1)];
    }
  }

  method Resolved(popped: seq<HeapEntry>, docID: nat -> gostring) returns (plain: seq<ScoredDocument>)
    ensures |plain| == |popped| && forall i :: 0 <= i < |plain| ==> plain[i] == ScoredDocument(docID(popped[i].docNum), popped[i].score, 0)
  {
    plain := [];
    for i := 0 to |popped|
      invariant |plain| == i && forall j :: 0 <= j < i ==> plain[j] == ScoredDocument(docID(popped[j].docNum), popped[j].score, 0)
    {
      plain := plain + [ScoredDocument(docID(popped[i].docNum), popped[i].score, 0)];
    }
  }

  /** Swap from both ends until they meet. */
  method Turned(plain: seq<ScoredDocument>) returns (results: seq<ScoredDocument>)
    ensures |results| == |plain| && forall k :: 0 <= k < |plain| ==> results[k] == plain[|plain| - 1 - k]
  {
    var n := |plain|;
    results := plain;
    var i, j := 0, n - 1;
    while i < j
      invariant 0 <= i && i + j == n - 1 && |results| == n && i <= j + 2
      invariant forall k :: 0 <= k < i ==> results[k] == plain[n - 1 - k]
      invariant forall k :: j < k < n ==> results[k] == plain[n - 1 - k]
      invariant forall k :: i <= k <= j ==> results[k] == plain[k]
    {
      results := results[i := results[j]][j := results[i]];
      i, j := i + 1, j - 1;
    }
  }
}
