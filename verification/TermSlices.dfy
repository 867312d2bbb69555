/** Ordering the vocabulary and cutting the sorted records into posting lists (internal/index/builder.go). */
module TermSlices {
  import opened Collections
  import opened Bits
  import opened RadixSort
  import opened PostingFormat
  import opened BuiltIndex
  import opened BuilderTables

  // ----- the vocabulary

  method SortTerms(termList: seq<gostring>) returns (terms: seq<gostring>)
    requires Distinct(termList)
    ensures SortedTerms(terms, Terms(termList)) && |terms| == |termList|
  {
    var a := new gostring[|termList|](_ => []);
    Store(a, termList);
    RadixSortStrings(a);
    terms := a[..];
    BagLength(terms, termList);
    StaysDistinct(termList, terms);
    forall t ensures t in terms <==> t in Terms(termList) {
      assert t in multiset(terms) <==> t in multiset(termList);
    }
  }

  lemma StaysDistinct(a: seq<gostring>, b: seq<gostring>)
    requires Distinct(a) && multiset(a) == multiset(b)
    ensures Distinct(b)
  {
    forall i, j | 0 <= i < j < |b| ensures b[i] != b[j] {
      OnceEach(a, b[i]);
      if b[i] == b[j] { TwiceIn(b, i, j); }
    }
  }

  lemma {:induction false} OnceEach<T>(a: seq<T>, x: T)
    requires forall i, j :: 0 <= i < j < |a| ==> a[i] != a[j]
    ensures multiset(a)[x] <= 1
  {
    if a != [] {
      var init, last := a[..|a| - 1], a[|a| - 1];
      OnceEach(init, x);
      assert a == init + [last];
      if x == last { assert x !in init; }
    }
  }

  lemma TwiceIn<T>(b: seq<T>, i: nat, j: nat)
    requires i < j < |b| && b[i] == b[j]
    ensures multiset(b)[b[i]] >= 2
  {
    assert b == b[..j] + [b[j]] + b[j + 1..];
    assert b[i] in b[..j];
  }

  /** The ordinal of every entry of a table without repeats. */
  method Positions(table: seq<gostring>) returns (index: map<gostring, nat>)
    requires Distinct(table)
    ensures forall t :: t in index ==> index[t] < |table| && table[index[t]] == t
    ensures forall i :: 0 <= i < |table| ==> table[i] in index && index[table[i]] == i
  {
    index := map[];
    for i := 0 to |table|
      invariant forall t :: t in index ==> index[t] < i && table[index[t]] == t
      invariant forall j :: 0 <= j < i ==> table[j] in index && index[table[j]] == j
    {
      index := index[table[i] := i];
    }
  }

  // ----- the slices

  /** Counts per term, then their prefix sums. */
  method TermStarts(postings: seq<RawPosting>, nTerms: nat) returns (termStart: seq<nat>)
    requires KeysBelow(postings, TermOf(), nTerms)
    ensures |termStart| == nTerms + 1
    ensures forall t {:trigger termStart[t]} :: 0 <= t <= nTerms ==> termStart[t] == |Buckets(postings, TermOf(), t)|
  {
    var a := new nat[nTerms + 1](_ => 0);
    for i := 0 to |postings|
      invariant a[0] == 0
      invariant forall t {:trigger a[t + 1]} :: 0 <= t < nTerms ==> a[t + 1] == |Bucket(postings[..i], TermOf(), t)|
    {
      hide Buckets;
      var p := postings[i];
      assert TermOf()(p) < nTerms;
      forall t | 0 <= t < nTerms
        ensures |Bucket(postings[..i + 1], TermOf(), t)| == |Bucket(postings[..i], TermOf(), t)| + if p.termID == t then 1 else 0
      {
        assert postings[..i + 1] == postings[..i] + [p];
        BucketSnoc(postings[..i], p, TermOf(), t);
      }
      a[p.termID + 1] := a[p.termID + 1] + 1;
    }
    assert postings[..|postings|] == postings;
    PrefixSums(a, postings, nTerms);
    termStart := a[..];
  }

  method PrefixSums(a: array<nat>, ghost postings: seq<RawPosting>, nTerms: nat)
    requires a.Length == nTerms + 1 && a[0] == 0
    requires forall t {:trigger a[t + 1]} :: 0 <= t < nTerms ==> a[t + 1] == |Bucket(postings, TermOf(), t)|
    modifies a
    ensures forall t {:trigger a[t]} :: 0 <= t <= nTerms ==> a[t] == |Buckets(postings, TermOf(), t)|
  {
    var i := 1;
    while i <= nTerms
      invariant 1 <= i <= nTerms + 1
      invariant forall t {:trigger a[t]} :: 0 <= t < i ==> a[t] == |Buckets(postings, TermOf(), t)|
      invariant forall t {:trigger Bucket(postings, TermOf(), t)} :: i - 1 <= t < nTerms ==> a[t + 1] == |Bucket(postings, TermOf(), t)|
    {
      ghost var t := i - 1;
      assert Buckets(postings, TermOf(), i) == Buckets(postings, TermOf(), t) + Bucket(postings, TermOf(), t);
      a[i] := a[i] + a[i - 1];
      i := i + 1;
    }
  }

  /** The records of one term, as postings. */
  ghost predicate SliceHolds(slice: seq<RawPosting>, ps: seq<Posting>) {
    |slice| == |ps| && forall i :: 0 <= i < |ps| ==> slice[i].docID == ps[i].doc && slice[i].tf == ps[i].tf
  }

  /** Records in document order without repeats are the term's list. */
  lemma SliceIsList(postings: seq<RawPosting>, slice: seq<RawPosting>, docs: seq<Doc>, termList: seq<gostring>, t: nat)
    requires Recorded(postings, docs, termList) && Distinct(termList) && t < |termList|
    requires multiset(slice) == multiset(Bucket(postings, TermOf(), t))
    requires forall i, j :: 0 <= i < j < |slice| ==> slice[i].docID <= slice[j].docID
    ensures SliceHolds(slice, TermList(docs, termList[t]))
  {
    hide Recorded, Bucket, ListUpTo;
    var ps := seq(|slice|, i requires 0 <= i < |slice| => Posting(slice[i].docID, slice[i].tf));
    var list := TermList(docs, termList[t]);
    forall i | 0 <= i < |slice| ensures ps[i] in list {
      InSlice(postings, slice, docs, termList, t, i);
    }
    forall j | 0 <= j < |list| ensures list[j] in ps {
      var i := FromList(postings, slice, docs, termList, t, j);
      assert ps[i] == list[j];
    }
    forall i, j | 0 <= i < j < |slice| ensures ps[i].doc < ps[j].doc {
      SliceDistinct(postings, slice, docs, termList, t, i, j);
    }
    SameIncreasing(ps, list);
  }

  lemma Members(postings: seq<RawPosting>, slice: seq<RawPosting>, t: nat, x: RawPosting)
    requires multiset(slice) == multiset(Bucket(postings, TermOf(), t))
    ensures x in slice <==> x in postings && x.termID == t
    ensures multiset(slice)[x] == if x.termID == t then multiset(postings)[x] else 0
  {
    hide Bucket;
    BucketCount(postings, TermOf(), t, x);
    assert x in slice <==> x in multiset(slice);
    assert x in postings <==> x in multiset(postings);
  }

  lemma InSlice(postings: seq<RawPosting>, slice: seq<RawPosting>, docs: seq<Doc>, termList: seq<gostring>, t: nat, i: nat)
    requires Recorded(postings, docs, termList) && t < |termList| && i < |slice|
    requires multiset(slice) == multiset(Bucket(postings, TermOf(), t))
    ensures Sound(slice[i], docs, termList) && slice[i].termID == t
    ensures Posting(slice[i].docID, slice[i].tf) in TermList(docs, termList[t])
  {
    hide Bucket, HasRecord;
    var x := slice[i];
    Members(postings, slice, t, x);
    var k :| 0 <= k < |postings| && postings[k] == x;
    assert Sound(postings[k], docs, termList);
  }

  lemma FromList(postings: seq<RawPosting>, slice: seq<RawPosting>, docs: seq<Doc>, termList: seq<gostring>, t: nat, j: nat)
    returns (i: nat)
    requires Recorded(postings, docs, termList) && Distinct(termList) && t < |termList| && j < |TermList(docs, termList[t])|
    requires multiset(slice) == multiset(Bucket(postings, TermOf(), t))
    ensures i < |slice| && Posting(slice[i].docID, slice[i].tf) == TermList(docs, termList[t])[j]
  {
    hide Bucket, Sound;
    var d := TermList(docs, termList[t])[j].doc;
    assert HasRecord(postings, docs, termList, d, termList[t]);
    var k :| 0 <= k < |postings| && postings[k].docID == d && postings[k].termID < |termList|
             && termList[postings[k].termID] == termList[t] && postings[k].tf == docs[d].tfs[termList[t]];
    assert postings[k].termID == t;
    Members(postings, slice, t, postings[k]);
    i :| 0 <= i < |slice| && slice[i] == postings[k];
  }

  lemma SliceDistinct(postings: seq<RawPosting>, slice: seq<RawPosting>, docs: seq<Doc>, termList: seq<gostring>, t: nat, i: nat, j: nat)
    requires Recorded(postings, docs, termList) && t < |termList| && i < j < |slice|
    requires multiset(slice) == multiset(Bucket(postings, TermOf(), t))
    ensures slice[i].docID != slice[j].docID
  {
    hide Bucket, HasRecord, ListUpTo;
    InSlice(postings, slice, docs, termList, t, i);
    InSlice(postings, slice, docs, termList, t, j);
    Members(postings, slice, t, slice[i]);
    OnceEach(postings, slice[i]);
    if slice[i] == slice[j] { TwiceIn(slice, i, j); }
  }

  ghost predicate Increasing(a: seq<Posting>) {
    forall i, j :: 0 <= i < j < |a| ==> a[i].doc < a[j].doc
  }

  ghost predicate Within(a: seq<Posting>, b: seq<Posting>) {
    forall i :: 0 <= i < |a| ==> a[i] in b
  }

  lemma SameHead(a: seq<Posting>, b: seq<Posting>)
    requires Increasing(a) && Increasing(b) && Within(a, b) && Within(b, a)
    ensures |a| > 0 <==> |b| > 0
    ensures |a| > 0 ==> a[0] == b[0]
  {
    if |a| > 0 { assert a[0] in b; }
    if |b| > 0 { assert b[0] in a; }
  }

  lemma TailWithin(a: seq<Posting>, b: seq<Posting>)
    requires Increasing(a) && Increasing(b) && Within(a, b) && |a| > 0 && |b| > 0 && a[0] == b[0]
    ensures Increasing(a[1..]) && Within(a[1..], b[1..])
  {
    forall i | 0 <= i < |a[1..]| ensures a[1..][i] in b[1..] {
      assert a[i + 1] in b && a[i + 1] != a[0];
    }
  }

  /** Two strictly increasing lists with the same elements are equal. */
  lemma {:induction false} SameIncreasing(a: seq<Posting>, b: seq<Posting>)
    requires Increasing(a) && Increasing(b) && Within(a, b) && Within(b, a)
    ensures a == b
  {
    hide Increasing, Within;
    SameHead(a, b);
    if |a| > 0 {
      TailWithin(a, b);
      TailWithin(b, a);
      SameIncreasing(a[1..], b[1..]);
      assert a == [a[0]] + a[1..] && b == [b[0]] + b[1..];
    }
  }
}
