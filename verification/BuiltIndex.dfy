/**
 What the index builder (internal/index/builder.go) is meant to produce: the
 index of each document's last version, as a property that fixes every field.
 */
module BuiltIndex {
  import opened Options
  import opened Bits
  import opened RadixSort
  import opened PostingFormat
  import opened Skips = SkipList
  import opened Index = InvertedIndex
  import opened Iter = PostingIter

  /** One version of a document: the frequencies of its terms and its length in tokens. */
  datatype Doc = Doc(docID: gostring, tfs: map<gostring, nat>, len: nat)

  // ----- versions

  /** No later version of the same document follows. */
  predicate IsLast(docs: seq<Doc>, i: nat)
    requires i < |docs|
  {
    forall j :: i < j < |docs| ==> docs[j].docID != docs[i].docID
  }

  /** The last versions among the first n, in the order they were added. */
  function Selected(docs: seq<Doc>, n: nat): (s: seq<Doc>)
    requires n <= |docs|
    ensures |s| <= n
  {
    if n == 0 then [] else
      Selected(docs, n - 1) + if IsLast(docs, n - 1) then [docs[n - 1]] else []
  }

  function LastVersions(docs: seq<Doc>): seq<Doc> {
    Selected(docs, |docs|)
  }

  ghost predicate DistinctIDs(docs: seq<Doc>) {
    forall i, j :: 0 <= i < j < |docs| ==> docs[i].docID != docs[j].docID
  }

  lemma {:induction false} SelectedPrefix(docs: seq<Doc>, m: nat, n: nat)
    requires m <= n <= |docs|
    ensures Selected(docs, m) <= Selected(docs, n)
  {
    if m < n { SelectedPrefix(docs, m, n - 1); }
  }

  /** A last version is found at the position given by the last versions before it. */
  lemma SelectedAt(docs: seq<Doc>, i: nat)
    requires i < |docs| && IsLast(docs, i)
    ensures var k := |Selected(docs, i)|; k < |LastVersions(docs)| && LastVersions(docs)[k] == docs[i]
  {
    var next := i + 1;
    SelectedPrefix(docs, next, |docs|);
    assert Selected(docs, next)[|Selected(docs, i)|] == docs[i];
  }

  /** Where selected version k comes from. */
  lemma {:induction false} SelectedFrom(docs: seq<Doc>, n: nat, k: nat) returns (i: nat)
    requires n <= |docs| && k < |Selected(docs, n)|
    ensures i < n && IsLast(docs, i) && |Selected(docs, i)| == k && Selected(docs, n)[k] == docs[i]
  {
    if k < |Selected(docs, n - 1)| {
      i := SelectedFrom(docs, n - 1, k);
    } else {
      i := n - 1;
    }
  }

  lemma LastDistinct(docs: seq<Doc>)
    ensures DistinctIDs(LastVersions(docs))
  {
    var s := LastVersions(docs);
    forall a, b | 0 <= a < b < |s| ensures s[a].docID != s[b].docID {
      var i := SelectedFrom(docs, |docs|, a);
      var j := SelectedFrom(docs, |docs|, b);
      if j < i { SelectedPrefix(docs, j, i); }
    }
  }

  /** The last version of every document added is selected, and nothing else. */
  lemma LastWins(docs: seq<Doc>, d: Doc)
    ensures d in LastVersions(docs) <==>
              exists i :: 0 <= i < |docs| && docs[i] == d && forall j :: i < j < |docs| ==> docs[j].docID != d.docID
  {
    var s := LastVersions(docs);
    if d in s {
      var k :| 0 <= k < |s| && s[k] == d;
      var i := SelectedFrom(docs, |docs|, k);
    }
    if i :| 0 <= i < |docs| && docs[i] == d && forall j :: i < j < |docs| ==> docs[j].docID != d.docID {
      SelectedAt(docs, i);
    }
  }

  lemma {:induction false} AllLast(docs: seq<Doc>, n: nat)
    requires DistinctIDs(docs) && n <= |docs|
    ensures Selected(docs, n) == docs[..n]
  {
    if n > 0 { AllLast(docs, n - 1); }
  }

  /** Adding only the last versions selects them all again. */
  lemma LastIdempotent(docs: seq<Doc>)
    ensures LastVersions(LastVersions(docs)) == LastVersions(docs)
  {
    var s := LastVersions(docs);
    LastDistinct(docs);
    AllLast(s, |s|);
    assert s[..|s|] == s;
  }

  // ----- lists

  /** Numbers fit their 32-bit fields. */
  ghost predicate Small(docs: seq<Doc>) {
    && |docs| < 0x1_0000_0000
    && forall i, t :: 0 <= i < |docs| && t in docs[i].tfs ==> docs[i].tfs[t] < 0x1_0000_0000
  }

  /** The postings of t among the first n documents. */
  ghost function ListUpTo(docs: seq<Doc>, t: gostring, n: nat): (ps: seq<Posting>)
    requires n <= |docs|
    ensures forall j :: 0 <= j < |ps| ==> ps[j].doc < n && t in docs[ps[j].doc].tfs && ps[j].tf == docs[ps[j].doc].tfs[t]
    ensures forall i, j :: 0 <= i < j < |ps| ==> ps[i].doc < ps[j].doc
    ensures forall d :: 0 <= d < n && t in docs[d].tfs ==> Posting(d, docs[d].tfs[t]) in ps
  {
    if n == 0 then [] else
      var ps := ListUpTo(docs, t, n - 1);
      if t in docs[n - 1].tfs then
        var p := Posting(n - 1, docs[n - 1].tfs[t]);
        StillIn(ps, p);
        ps + [p]
      else ps
  }

  lemma StillIn(ps: seq<Posting>, p: Posting)
    ensures p in ps + [p] && forall x :: x in ps ==> x in ps + [p]
  {
  }

  ghost function TermList(docs: seq<Doc>, t: gostring): seq<Posting> {
    ListUpTo(docs, t, |docs|)
  }

  lemma TermListValid(docs: seq<Doc>, t: gostring)
    requires Small(docs)
    ensures ValidList(TermList(docs, t))
  {
  }

  ghost function Lists(docs: seq<Doc>, terms: seq<gostring>): (lists: seq<seq<Posting>>)
    ensures |lists| == |terms| && forall o :: 0 <= o < |terms| ==> lists[o] == TermList(docs, terms[o])
  {
    seq(|terms|, o requires 0 <= o < |terms| => TermList(docs, terms[o]))
  }

  function TotalLen(docs: seq<Doc>): nat {
    if docs == [] then 0 else TotalLen(docs[..|docs| - 1]) + docs[|docs| - 1].len
  }

  lemma {:induction false} TotalSame(a: seq<Doc>, b: seq<Doc>)
    requires |a| == |b| && forall d :: 0 <= d < |a| ==> a[d].len == b[d].len
    ensures TotalLen(a) == TotalLen(b)
  {
    if a != [] { TotalSame(a[..|a| - 1], b[..|b| - 1]); }
  }

  ghost function AvgLen(docs: seq<Doc>): real {
    if docs == [] then 0.0 else (TotalLen(docs) as real) / (|docs| as real)
  }

  // ----- bounds

  /** ScoreTerm(tf, df, dl, avgDocLen, N) of the build-time scorer, and rounding to a 32-bit float. */
  datatype BuildScoring = BuildScoring(scoreTerm: (nat, nat, nat, real, nat) -> real, round32: real -> real)

  ghost function BuildScore(k: BuildScoring, docs: seq<Doc>, ps: seq<Posting>, j: nat): real
    requires j < |ps| && ps[j].doc < |docs|
  {
    k.scoreTerm(ps[j].tf, |ps|, docs[ps[j].doc].len, AvgLen(docs), |docs|)
  }

  ghost predicate InDocs(ps: seq<Posting>, docs: seq<Doc>) {
    forall j :: 0 <= j < |ps| ==> ps[j].doc < |docs|
  }

  /** The largest score of postings lo, ..., hi - 1, at least 0. */
  ghost function MaxImpact(k: BuildScoring, docs: seq<Doc>, ps: seq<Posting>, lo: nat, hi: nat): (m: real)
    requires lo <= hi <= |ps| && InDocs(ps, docs)
    ensures m >= 0.0
    ensures forall j :: lo <= j < hi ==> BuildScore(k, docs, ps, j) <= m
  {
    if lo == hi then 0.0 else
      var m := MaxImpact(k, docs, ps, lo, hi - 1);
      var x := BuildScore(k, docs, ps, hi - 1);
      if x > m then x else m
  }

  /** The largest score is the score of some posting, unless it is 0. */
  lemma {:induction false} MaxIsReached(k: BuildScoring, docs: seq<Doc>, ps: seq<Posting>, lo: nat, hi: nat)
    requires lo <= hi <= |ps| && InDocs(ps, docs)
    ensures MaxImpact(k, docs, ps, lo, hi) == 0.0 || exists j :: lo <= j < hi && BuildScore(k, docs, ps, j) == MaxImpact(k, docs, ps, lo, hi)
  {
    hide BuildScore;
    if lo < hi { MaxIsReached(k, docs, ps, lo, hi - 1); }
  }

  // ----- the index

  /** The bytes of the first n lists. */
  ghost function Joined(lists: seq<seq<Posting>>, n: nat): seq<byte>
    requires n <= |lists| && forall o :: 0 <= o < |lists| ==> ValidList(lists[o])
  {
    if n == 0 then [] else Joined(lists, n - 1) + EncodeList(lists[n - 1])
  }

  ghost predicate SortedTerms(terms: seq<gostring>, vocabulary: set<gostring>) {
    && Ordered(terms, LexLe) && (forall i, j :: 0 <= i < j < |terms| ==> terms[i] != terms[j])
    && (forall t :: t in terms <==> t in vocabulary)
  }

  /** The bound and skip list stored for one term. */
  ghost predicate TermBounds(ub: real, skip: Option<SkipList>, k: BuildScoring, docs: seq<Doc>, ps: seq<Posting>)
    requires ValidList(ps) && InDocs(ps, docs)
  {
    && ub == MaxImpact(k, docs, ps, 0, |ps|)
    && (skip.Some? <==> FullBlocks(ps) > 0)
    && (skip.Some? ==>
          && Describes(skip.value, ps)
          && forall b :: 0 <= b < FullBlocks(ps) ==>
               skip.value.l0Impact[b] == k.round32(MaxImpact(k, docs, ps, 128 * b, 128 * b + 128)))
  }

  /** idx is the index of docs, no two of which share an ID, with these terms. */
  ghost predicate IsIndexOf(idx: InvertedIndex, docs: seq<Doc>, vocabulary: set<gostring>, k: BuildScoring)
    requires Small(docs)
  {
    var lists := Lists(docs, idx.terms);
    && DistinctIDs(docs) && SortedTerms(idx.terms, vocabulary) && Tables(idx)
    && (forall o :: 0 <= o < |lists| ==> ValidList(lists[o]) && InDocs(lists[o], docs))
    && idx.data == Joined(lists, |lists|)
    && |idx.offsets| == (if docs == [] then 0 else |lists| + 1) && (docs == [] ==> idx.terms == [])
    && (forall o :: 0 <= o < |idx.offsets| ==> idx.offsets[o] == |Joined(lists, o)|)
    && (forall o :: 0 <= o < |lists| ==> idx.dfs[o] == |lists[o]| && TermBounds(idx.ub[o], idx.skipLists[o], k, docs, lists[o]))
    && idx.N == |docs| && (forall d :: 0 <= d < |docs| ==> idx.docIDs[d] == docs[d].docID)
    && idx.docLengths.Keys == idx.docIDIndex.Keys
    && (forall d :: 0 <= d < |docs| ==> docs[d].docID in idx.docLengths && idx.docLengths[docs[d].docID] == docs[d].len)
    && idx.avgDocLen == AvgLen(docs)
  }
}
