/**
 The radix sorts of internal/index/radixsort.go.

 A stable counting pass turns a sequence into the concatenation of its buckets.
 Everything the sorts promise is a property of that concatenation.
 */
module RadixSort {
  import opened Bits
  import opened Collections

  datatype RawPosting = RawPosting(termID: u32, docID: u32, tf: u32)

  // ----- buckets

  /** The elements with key b, in their order. */
  function Bucket<T>(s: seq<T>, key: T -> nat, b: nat): seq<T> {
    if s == [] then []
    else
      var t := Bucket(s[..|s| - 1], key, b);
      if key(s[|s| - 1]) == b then t + [s[|s| - 1]] else t
  }

  /** Buckets 0, 1, ..., n - 1, one after the other. */
  function Buckets<T>(s: seq<T>, key: T -> nat, n: nat): seq<T> {
    if n == 0 then [] else Buckets(s, key, n - 1) + Bucket(s, key, n - 1)
  }

  ghost predicate Ordered<T>(s: seq<T>, le: (T, T) -> bool) {
    forall i, j :: 0 <= i < j < |s| ==> le(s[i], s[j])
  }

  ghost predicate KeysBelow<T>(s: seq<T>, key: T -> nat, n: nat) {
    forall i :: 0 <= i < |s| ==> key(s[i]) < n
  }

  /** Compare by key first and by r within a key. */
  ghost function Refine<T>(key: T -> nat, r: (T, T) -> bool): (T, T) -> bool {
    (x: T, y: T) => key(x) < key(y) || (key(x) == key(y) && r(x, y))
  }

  lemma {:induction false} BucketConcat<T>(a: seq<T>, b: seq<T>, key: T -> nat, k: nat)
    ensures Bucket(a + b, key, k) == Bucket(a, key, k) + Bucket(b, key, k)
  {
    if b == [] {
      assert a + b == a;
    } else {
      assert (a + b)[..|a + b| - 1] == a + b[..|b| - 1];
      BucketConcat(a, b[..|b| - 1], key, k);
    }
  }

  lemma BucketOne<T>(x: T, key: T -> nat, k: nat)
    ensures Bucket([x], key, k) == if key(x) == k then [x] else []
  {
    assert [x][..0] == [];
  }

  lemma {:induction false} BucketKeys<T>(s: seq<T>, key: T -> nat, k: nat)
    ensures forall x :: x in Bucket(s, key, k) ==> x in s && key(x) == k
  {
    if s != [] { BucketKeys(s[..|s| - 1], key, k); }
  }

  lemma {:induction false} BucketOrdered<T>(s: seq<T>, key: T -> nat, k: nat, r: (T, T) -> bool)
    requires Ordered(s, r)
    ensures Ordered(Bucket(s, key, k), r)
  {
    if s != [] {
      BucketOrdered(s[..|s| - 1], key, k, r);
      BucketKeys(s[..|s| - 1], key, k);
      var t := Bucket(s[..|s| - 1], key, k);
      forall i | 0 <= i < |t| ensures r(t[i], s[|s| - 1]) {
        assert t[i] in s[..|s| - 1];
      }
    }
  }

  lemma {:induction false} BucketsKeys<T>(s: seq<T>, key: T -> nat, n: nat)
    ensures forall x :: x in Buckets(s, key, n) ==> x in s && key(x) < n
  {
    if n > 0 {
      BucketsKeys(s, key, n - 1);
      BucketKeys(s, key, n - 1);
    }
  }

  /** A stable pass refines the order the elements arrived in. */
  lemma {:induction false} BucketsOrdered<T>(s: seq<T>, key: T -> nat, n: nat, r: (T, T) -> bool)
    requires Ordered(s, r)
    ensures Ordered(Buckets(s, key, n), Refine(key, r))
  {
    if n > 0 {
      BucketsOrdered(s, key, n - 1, r);
      BucketOrdered(s, key, n - 1, r);
      BucketsKeys(s, key, n - 1);
      BucketKeys(s, key, n - 1);
      var a, b := Buckets(s, key, n - 1), Bucket(s, key, n - 1);
      assert forall i :: 0 <= i < |a| ==> a[i] in a;
      assert forall i :: 0 <= i < |b| ==> b[i] in b;
    }
  }

  lemma {:induction false} BucketsSnoc<T>(s: seq<T>, x: T, key: T -> nat, n: nat)
    ensures multiset(Buckets(s + [x], key, n)) ==
            multiset(Buckets(s, key, n)) + if key(x) < n then multiset{x} else multiset{}
  {
    hide Bucket;
    if n > 0 {
      BucketsSnoc(s, x, key, n - 1);
      BucketSnoc(s, x, key, n - 1);
      BagSnoc(Buckets(s, key, n - 1), Buckets(s + [x], key, n - 1), Bucket(s, key, n - 1), if key(x) == n - 1 then [x] else []);
    }
  }

  lemma BucketSnoc<T>(s: seq<T>, x: T, key: T -> nat, k: nat)
    ensures Bucket(s + [x], key, k) == Bucket(s, key, k) + if key(x) == k then [x] else []
  {
    hide Bucket;
    BucketConcat(s, [x], key, k);
    BucketOne(x, key, k);
  }

  lemma BagSnoc<T>(a: seq<T>, a': seq<T>, c: seq<T>, d: seq<T>)
    ensures multiset(a' + (c + d)) == multiset(a') + multiset(c) + multiset(d)
    ensures multiset(a + c) == multiset(a) + multiset(c)
  {
  }

  lemma {:induction false} BucketsEmpty<T>(key: T -> nat, n: nat)
    ensures Buckets([], key, n) == []
  {
    if n > 0 { BucketsEmpty(key, n - 1); }
  }

  /** A pass loses and invents nothing. */
  lemma {:induction false} BucketsPermute<T>(s: seq<T>, key: T -> nat, n: nat)
    requires KeysBelow(s, key, n)
    ensures multiset(Buckets(s, key, n)) == multiset(s)
    ensures |Buckets(s, key, n)| == |s|
  {
    if s == [] {
      BucketsEmpty(key, n);
    } else {
      var t, x := s[..|s| - 1], s[|s| - 1];
      assert s == t + [x];
      BucketsPermute(t, key, n);
      BucketsSnoc(t, x, key, n);
    }
    assert |multiset(Buckets(s, key, n))| == |Buckets(s, key, n)|;
  }

  lemma {:induction false} BucketsMono<T>(s: seq<T>, key: T -> nat, m: nat, n: nat)
    requires m <= n
    ensures Buckets(s, key, m) <= Buckets(s, key, n)
  {
    if m < n { BucketsMono(s, key, m, n - 1); }
  }

  lemma BucketsLen<T>(s: seq<T>, key: T -> nat, m: nat, n: nat)
    requires m <= n
    ensures |Buckets(s, key, m)| <= |Buckets(s, key, n)|
  {
    BucketsMono(s, key, m, n);
  }

  /** Bucket b lies at |Buckets(s, key, b)| in the concatenation. */
  lemma BucketPlace<T>(s: seq<T>, key: T -> nat, b: nat, n: nat)
    requires b < n
    ensures |Buckets(s, key, b)| + |Bucket(s, key, b)| == |Buckets(s, key, b + 1)| <= |Buckets(s, key, n)|
    ensures Buckets(s, key, n)[|Buckets(s, key, b)|..|Buckets(s, key, b + 1)|] == Bucket(s, key, b)
  {
    BucketsMono(s, key, b + 1, n);
  }

  /** A sequence already ordered by key is the concatenation of its buckets. */
  lemma {:induction false} OrderedIsBuckets<T>(s: seq<T>, key: T -> nat, n: nat)
    requires KeysBelow(s, key, n)
    requires forall i, j :: 0 <= i < j < |s| ==> key(s[i]) <= key(s[j])
    ensures Buckets(s, key, n) == s
    decreases n
  {
    hide Bucket, Buckets;
    if s == [] {
      BucketsEmpty(key, n);
    } else {
      assert key(s[0]) < n;
      var a, b := SplitByKey(s, key, n - 1);
      OrderedIsBuckets(a, key, n - 1);
      SplitAtTop(a, b, key, n - 1);
    }
  }

  lemma SplitByKey<T>(s: seq<T>, key: T -> nat, k: nat) returns (a: seq<T>, b: seq<T>)
    requires KeysBelow(s, key, k + 1)
    requires forall i, j :: 0 <= i < j < |s| ==> key(s[i]) <= key(s[j])
    ensures s == a + b && KeysBelow(a, key, k) && forall i :: 0 <= i < |b| ==> key(b[i]) == k
    ensures forall i, j :: 0 <= i < j < |a| ==> key(a[i]) <= key(a[j])
  {
    var m := FirstAtLeast(s, key, k);
    a, b := s[..m], s[m..];
  }

  lemma SplitAtTop<T>(a: seq<T>, b: seq<T>, key: T -> nat, k: nat)
    requires KeysBelow(a, key, k) && forall i :: 0 <= i < |b| ==> key(b[i]) == k
    ensures Buckets(a + b, key, k + 1) == Buckets(a, key, k) + b
  {
    assert Bucket(a + b, key, k) == b by {
      BucketConcat(a, b, key, k);
      BucketAll(b, key, k);
      BucketNone(a, key, k);
    }
    assert Buckets(a + b, key, k) == Buckets(a, key, k) by {
      BucketsIgnore(a, b, key, k);
    }
  }

  lemma FirstAtLeast<T>(s: seq<T>, key: T -> nat, k: nat) returns (m: nat)
    requires forall i, j :: 0 <= i < j < |s| ==> key(s[i]) <= key(s[j])
    ensures m <= |s| && (forall i :: 0 <= i < m ==> key(s[i]) < k) && (forall i :: m <= i < |s| ==> key(s[i]) >= k)
  {
    m := 0;
    while m < |s| && key(s[m]) < k
      invariant m <= |s| && forall i :: 0 <= i < m ==> key(s[i]) < k
    {
      m := m + 1;
    }
  }

  lemma {:induction false} BucketAll<T>(s: seq<T>, key: T -> nat, k: nat)
    requires forall i :: 0 <= i < |s| ==> key(s[i]) == k
    ensures Bucket(s, key, k) == s
  {
    if s != [] {
      BucketAll(s[..|s| - 1], key, k);
      assert s == s[..|s| - 1] + [s[|s| - 1]];
    }
  }

  lemma {:induction false} BucketNone<T>(s: seq<T>, key: T -> nat, k: nat)
    requires forall i :: 0 <= i < |s| ==> key(s[i]) != k
    ensures Bucket(s, key, k) == []
  {
    if s != [] { BucketNone(s[..|s| - 1], key, k); }
  }

  lemma {:induction false} BucketsIgnore<T>(a: seq<T>, b: seq<T>, key: T -> nat, n: nat)
    requires forall i :: 0 <= i < |b| ==> key(b[i]) >= n
    ensures Buckets(a + b, key, n) == Buckets(a, key, n)
  {
    hide Bucket;
    if n > 0 {
      BucketsIgnore(a, b, key, n - 1);
      BucketConcat(a, b, key, n - 1);
      BucketNone(b, key, n - 1);
    }
  }

  // ----- counting passes

  /** How many elements of s have each key. */
  method CountKeys<T>(s: array<T>, key: T -> nat, radix: nat) returns (count: array<int>)
    requires KeysBelow(s[..], key, radix)
    ensures fresh(count) && count.Length == radix
    ensures forall b {:trigger count[b]} :: 0 <= b < radix ==> count[b] == |Bucket(s[..], key, b)|
  {
    count := new int[radix](_ => 0);
    for i := 0 to s.Length
      invariant forall b {:trigger count[b]} :: 0 <= b < radix ==> count[b] == |Bucket(s[..i], key, b)|
    {
      ghost var before := count[..];
      assert key(s[..][i]) < radix;
      count[key(s[i])] := count[key(s[i])] + 1;
      forall b | 0 <= b < radix ensures count[b] == |Bucket(s[..i + 1], key, b)| {
        assert s[..i + 1] == s[..i] + [s[i]];
        assert before[b] == |Bucket(s[..i], key, b)|;
        BucketConcat(s[..i], [s[i]], key, b);
        BucketOne(s[i], key, b);
      }
    }
    assert s[..s.Length] == s[..];
  }

  /** dst holds run at position at. */
  ghost predicate Holds<T>(dst: seq<T>, at: nat, run: seq<T>) {
    at + |run| <= |dst| && dst[at..at + |run|] == run
  }

  /** The first i elements are in place: each bucket's share starts where the bucket starts. */
  ghost predicate Placed<T>(dst: seq<T>, s: seq<T>, i: nat, key: T -> nat, radix: nat)
    requires i <= |s|
  {
    forall b: nat :: b < radix ==> InPlace(dst, s, i, key, b)
  }

  ghost predicate InPlace<T>(dst: seq<T>, s: seq<T>, i: nat, key: T -> nat, b: nat)
    requires i <= |s|
  {
    Holds(dst, |Buckets(s, key, b)|, Bucket(s[..i], key, b))
  }

  /** Where the next element of bucket b goes. */
  ghost function Slot<T>(s: seq<T>, i: nat, key: T -> nat, b: nat): nat
    requires i <= |s|
  {
    |Buckets(s, key, b)| + |Bucket(s[..i], key, b)|
  }

  lemma PrefixFits<T>(s: seq<T>, i: nat, key: T -> nat, b: nat, radix: nat)
    requires i <= |s| && b < radix && KeysBelow(s, key, radix)
    ensures |Buckets(s, key, b)| + |Bucket(s[..i], key, b)| <= |Buckets(s, key, b + 1)| <= |s|
  {
    BucketConcat(s[..i], s[i..], key, b);
    assert s == s[..i] + s[i..];
    BucketPlace(s, key, b, radix);
    BucketsPermute(s, key, radix);
  }

  lemma NextSlot<T>(s: seq<T>, i: nat, key: T -> nat, b: nat, radix: nat)
    requires i < |s| && b < radix && KeysBelow(s, key, radix)
    ensures Bucket(s[..i + 1], key, b) == Bucket(s[..i], key, b) + if key(s[i]) == b then [s[i]] else []
    ensures |Buckets(s, key, b)| + |Bucket(s[..i + 1], key, b)| <= |Buckets(s, key, b + 1)| <= |s|
  {
    assert s[..i + 1] == s[..i] + [s[i]];
    BucketConcat(s[..i], [s[i]], key, b);
    BucketOne(s[i], key, b);
    PrefixFits(s, i + 1, key, b, radix);
  }

  lemma {:induction false} Assemble<T>(dst: seq<T>, s: seq<T>, key: T -> nat, radix: nat, n: nat)
    requires |dst| == |s| && n <= radix && KeysBelow(s, key, radix) && Placed(dst, s, |s|, key, radix)
    ensures |Buckets(s, key, n)| <= |dst| && dst[..|Buckets(s, key, n)|] == Buckets(s, key, n)
  {
    if n > 0 {
      Assemble(dst, s, key, radix, n - 1);
      var a, c := Buckets(s, key, n - 1), Bucket(s, key, n - 1);
      assert s[..|s|] == s;
      assert InPlace(dst, s, |s|, key, n - 1);
      assert dst[..|a| + |c|] == dst[..|a|] + dst[|a|..|a| + |c|];
    }
  }

  /** Prefix sums: counts become start positions. */
  method StartPositions<T>(count: array<int>, ghost s: seq<T>, ghost key: T -> nat, radix: nat)
    requires count.Length == radix && forall b {:trigger count[b]} :: 0 <= b < radix ==> count[b] == |Bucket(s, key, b)|
    modifies count
    ensures forall b {:trigger count[b]} :: 0 <= b < radix ==> count[b] == |Buckets(s, key, b)|
  {
    var sum := 0;
    for b := 0 to radix
      invariant sum == |Buckets(s, key, b)|
      invariant forall k {:trigger count[k]} :: 0 <= k < b ==> count[k] == |Buckets(s, key, k)|
      invariant forall k {:trigger count[k]} :: b <= k < radix ==> count[k] == |Bucket(s, key, k)|
    {
      count[b], sum := sum, sum + count[b];
    }
  }

  lemma PlacedNone<T>(dst: seq<T>, s: seq<T>, key: T -> nat, radix: nat)
    requires |dst| == |s| && KeysBelow(s, key, radix)
    ensures Placed(dst, s, 0, key, radix)
    ensures forall b: nat :: b < radix ==> Slot(s, 0, key, b) == |Buckets(s, key, b)|
  {
    assert s[..0] == [];
    forall b: nat | b < radix
      ensures InPlace(dst, s, 0, key, b) && Slot(s, 0, key, b) == |Buckets(s, key, b)|
    {
      BucketPlace(s, key, b, radix);
      BucketsPermute(s, key, radix);
    }
  }

  /** One pass of radixSortPostings: count, prefix sums, distribute left to right. */
  method StablePass<T>(src: array<T>, dst: array<T>, key: T -> nat, radix: nat)
    requires src != dst && src.Length == dst.Length && KeysBelow(src[..], key, radix)
    modifies dst
    ensures dst[..] == Buckets(src[..], key, radix)
  {
    ghost var s := src[..];
    var count := CountKeys(src, key, radix);
    StartPositions(count, s, key, radix);
    PlacedNone(dst[..], s, key, radix);
    for i := 0 to src.Length
      invariant s == src[..] && Placed(dst[..], s, i, key, radix)
      invariant forall b {:trigger count[b]} :: 0 <= b < radix ==> count[b] == Slot(s, i, key, b)
    {
      var bucket := key(src[i]);
      assert key(s[i]) < radix;
      ghost var before := dst[..];
      PlaceOne(before, s, i, key, radix);
      dst[count[bucket]] := src[i];
      assert dst[..] == before[count[bucket] := s[i]];
      count[bucket] := count[bucket] + 1;
    }
    assert s[..src.Length] == s;
    Assemble(dst[..], s, key, radix, radix);
    BucketsPermute(s, key, radix);
  }

  lemma PlaceOne<T>(dst: seq<T>, s: seq<T>, i: nat, key: T -> nat, radix: nat)
    requires i < |s| == |dst| && KeysBelow(s, key, radix) && Placed(dst, s, i, key, radix)
    ensures var p := Slot(s, i, key, key(s[i]));
            p < |dst| && Placed(dst[p := s[i]], s, i + 1, key, radix)
    ensures forall b: nat :: b < radix ==>
              Slot(s, i + 1, key, b) == Slot(s, i, key, b) + if key(s[i]) == b then 1 else 0
  {
    var k := key(s[i]);
    NextSlot(s, i, key, k, radix);
    var p := Slot(s, i, key, k);
    var dst', i' := dst[p := s[i]], i + 1;
    forall b: nat | b < radix ensures InPlace(dst', s, i', key, b) {
      PlaceOneIn(dst, s, i, key, b, radix);
    }
    forall b: nat | b < radix ensures Slot(s, i + 1, key, b) == Slot(s, i, key, b) + if k == b then 1 else 0 {
      PlaceOneIn(dst, s, i, key, b, radix);
    }
  }

  lemma PlaceOneIn<T>(dst: seq<T>, s: seq<T>, i: nat, key: T -> nat, b: nat, radix: nat)
    requires i < |s| == |dst| && KeysBelow(s, key, radix) && InPlace(dst, s, i, key, b)
    requires b < radix && key(s[i]) < radix && Slot(s, i, key, key(s[i])) < |dst|
    ensures InPlace(dst[Slot(s, i, key, key(s[i])) := s[i]], s, i + 1, key, b)
    ensures Slot(s, i + 1, key, b) == Slot(s, i, key, b) + if key(s[i]) == b then 1 else 0
  {
    hide Bucket, Buckets;
    var k := key(s[i]);
    var p := Slot(s, i, key, k);
    NextSlot(s, i, key, k, radix);
    NextSlot(s, i, key, b, radix);
    if b < k {
      BucketsMono(s, key, b + 1, k);
    } else if k < b {
      BucketsMono(s, key, k + 1, b);
    }
    HoldsUpdate(dst, p, s[i], |Buckets(s, key, b)|, Bucket(s[..i], key, b));
  }

  lemma HoldsUpdate<T>(dst: seq<T>, p: nat, x: T, at: nat, run: seq<T>)
    requires p < |dst| && Holds(dst, at, run)
    ensures p == at + |run| ==> Holds(dst[p := x], at, run + [x])
    ensures p < at || p >= at + |run| ==> Holds(dst[p := x], at, run)
  {
  }

  // ----- the sort calls below the thresholds

  function Insert<T>(x: T, s: seq<T>, le: (T, T) -> bool): (r: seq<T>)
    ensures multiset(r) == multiset{x} + multiset(s)
  {
    if s == [] then [x]
    else if le(x, s[0]) then [x] + s
    else
      assert s == [s[0]] + s[1..];
      [s[0]] + Insert(x, s[1..], le)
  }

  /** Stands in for sort.Slice and sort.Strings: some ordered permutation of s. */
  function LibrarySort<T>(s: seq<T>, le: (T, T) -> bool): (r: seq<T>)
    ensures multiset(r) == multiset(s)
  {
    if s == [] then []
    else
      assert s == [s[0]] + s[1..];
      Insert(s[0], LibrarySort(s[1..], le), le)
  }

  lemma {:induction false} InsertOrdered<T(!new)>(x: T, s: seq<T>, le: (T, T) -> bool)
    requires TotalPreorder(le) && Ordered(s, le)
    ensures Ordered(Insert(x, s, le), le)
  {
    if s != [] && !le(x, s[0]) {
      InsertOrdered(x, s[1..], le);
      var t := Insert(x, s[1..], le);
      forall i | 0 <= i < |t| ensures le(s[0], t[i]) {
        assert t[i] in multiset(t);
      }
    }
  }

  lemma {:induction false} LibrarySortOrdered<T(!new)>(s: seq<T>, le: (T, T) -> bool)
    requires TotalPreorder(le)
    ensures Ordered(LibrarySort(s, le), le)
  {
    if s != [] {
      LibrarySortOrdered(s[1..], le);
      InsertOrdered(s[0], LibrarySort(s[1..], le), le);
    }
  }

  method Store<T>(a: array<T>, s: seq<T>)
    requires a.Length == |s|
    modifies a
    ensures a[..] == s
  {
    for i := 0 to |s|
      invariant a[..i] == s[..i]
    {
      a[i] := s[i];
    }
  }

  // ----- radixSortPostings

  /** Term first, document second. */
  predicate PostingLe(x: RawPosting, y: RawPosting) {
    x.termID < y.termID || (x.termID == y.termID && x.docID <= y.docID)
  }

  /** The four 16-bit digits of the packed key, lowest first. */
  function Digit(d: nat): RawPosting -> nat {
    (p: RawPosting) =>
      if d == 0 then p.docID % 0x1_0000 else if d == 1 then p.docID / 0x1_0000
      else if d == 2 then p.termID % 0x1_0000 else p.termID / 0x1_0000
  }

  ghost function DigitsLe(d: nat): (RawPosting, RawPosting) -> bool {
    if d == 0 then (x: RawPosting, y: RawPosting) => true else Refine(Digit(d - 1), DigitsLe(d - 1))
  }

  lemma DigitsAreKey(x: RawPosting, y: RawPosting)
    ensures DigitsLe(4)(x, y) <==> PostingLe(x, y)
  {
    assert DigitsLe(1)(x, y) == Refine(Digit(0), DigitsLe(0))(x, y);
    assert DigitsLe(2)(x, y) == Refine(Digit(1), DigitsLe(1))(x, y);
    assert DigitsLe(3)(x, y) == Refine(Digit(2), DigitsLe(2))(x, y);
    assert DigitsLe(4)(x, y) == Refine(Digit(3), DigitsLe(3))(x, y);
  }

  /** One digit pass: the order of the digits below is refined by this one. */
  method DigitPass(src: array<RawPosting>, dst: array<RawPosting>, d: nat)
    requires src != dst && src.Length == dst.Length && d < 4 && Ordered(src[..], DigitsLe(d))
    modifies dst
    ensures Ordered(dst[..], DigitsLe(d + 1)) && multiset(dst[..]) == multiset(src[..])
  {
    StablePass(src, dst, Digit(d), 0x1_0000);
    BucketsOrdered(src[..], Digit(d), 0x1_0000, DigitsLe(d));
    BucketsPermute(src[..], Digit(d), 0x1_0000);
  }

  method RadixSortPostings(ps: array<RawPosting>)
    modifies ps
    ensures Ordered(ps[..], PostingLe) && multiset(ps[..]) == multiset(old(ps[..]))
  {
    if ps.Length < 512 {
      LibrarySortOrdered(ps[..], PostingLe);
      BagLength(LibrarySort(ps[..], PostingLe), ps[..]);
      Store(ps, LibrarySort(ps[..], PostingLe));
      return;
    }
    var tmp := new RawPosting[ps.Length](_ => RawPosting(0, 0, 0));
    DigitPass(ps, tmp, 0);
    DigitPass(tmp, ps, 1);
    DigitPass(ps, tmp, 2);
    DigitPass(tmp, ps, 3);
    forall i, j | 0 <= i < j < ps.Length ensures PostingLe(ps[..][i], ps[..][j]) {
      DigitsAreKey(ps[..][i], ps[..][j]);
    }
  }

  lemma BagLength<T>(a: seq<T>, b: seq<T>)
    requires multiset(a) == multiset(b)
    ensures |a| == |b|
  {
    assert |multiset(a)| == |a| && |multiset(b)| == |b|;
  }

  // ----- radixSortStrings

  /** Byte-wise lexicographic order; a proper prefix comes first. */
  predicate LexLe(a: gostring, b: gostring) {
    a == [] || (b != [] && (a[0] < b[0] || (a[0] == b[0] && LexLe(a[1..], b[1..]))))
  }

  /** The bucket of a string at a position: 0 when it has no byte there. */
  function ByteKey(pos: nat): gostring -> nat {
    (s: gostring) => if pos < |s| then (s[pos] as int) + 1 else 0
  }

  /** The order once positions pos, pos + 1, ..., len - 1 have been sorted on. */
  ghost function FromPos(pos: nat, len: nat): (gostring, gostring) -> bool
    decreases len - pos
  {
    if pos >= len then (a: gostring, b: gostring) => true else Refine(ByteKey(pos), FromPos(pos + 1, len))
  }

  lemma {:induction false} FromPosIsLex(a: gostring, b: gostring, pos: nat, len: nat)
    requires |a| <= len && |b| <= len && pos <= len
    ensures FromPos(pos, len)(a, b) <==>
            LexLe(if pos < |a| then a[pos..] else [], if pos < |b| then b[pos..] else [])
    decreases len - pos
  {
    if pos < len {
      FromPosIsLex(a, b, pos + 1, len);
      assert FromPos(pos, len)(a, b) == Refine(ByteKey(pos), FromPos(pos + 1, len))(a, b);
      if pos < |a| { assert a[pos..][1..] == if pos + 1 < |a| then a[pos + 1..] else []; }
      if pos < |b| { assert b[pos..][1..] == if pos + 1 < |b| then b[pos + 1..] else []; }
    }
  }

  lemma {:induction false} LexTotal(a: gostring, b: gostring)
    ensures LexLe(a, b) || LexLe(b, a)
  {
    if a != [] && b != [] { LexTotal(a[1..], b[1..]); }
  }

  lemma {:induction false} LexTransitive(a: gostring, b: gostring, c: gostring)
    requires LexLe(a, b) && LexLe(b, c)
    ensures LexLe(a, c)
  {
    if a != [] && a[0] == b[0] == c[0] { LexTransitive(a[1..], b[1..], c[1..]); }
  }

  lemma {:induction false} LexAntisymmetric(a: gostring, b: gostring)
    requires LexLe(a, b) && LexLe(b, a)
    ensures a == b
  {
    if a != [] {
      LexAntisymmetric(a[1..], b[1..]);
      assert a == [a[0]] + a[1..] && b == [b[0]] + b[1..];
    }
  }

  lemma LexIsTotalPreorder()
    ensures TotalPreorder(LexLe)
  {
    forall a, b ensures LexLe(a, b) || LexLe(b, a) { LexTotal(a, b); }
    forall a, b, c | LexLe(a, b) && LexLe(b, c) ensures LexLe(a, c) { LexTransitive(a, b, c); }
  }

  /** Elements i, i + 1, ... are in place: each bucket's share ends where the bucket ends. */
  ghost predicate PlacedRight<T>(dst: seq<T>, s: seq<T>, i: nat, key: T -> nat, radix: nat)
    requires i <= |s|
  {
    forall b: nat :: b < radix ==> InPlaceRight(dst, s, i, key, b)
  }

  ghost predicate InPlaceRight<T>(dst: seq<T>, s: seq<T>, i: nat, key: T -> nat, b: nat)
    requires i <= |s|
  {
    SlotRight(s, i, key, b) >= 0 && Holds(dst, SlotRight(s, i, key, b), Bucket(s[i..], key, b))
  }

  /** Where bucket b's share of s[i..] starts. */
  ghost function SlotRight<T>(s: seq<T>, i: nat, key: T -> nat, b: nat): int
    requires i <= |s|
  {
    |Buckets(s, key, b + 1)| - |Bucket(s[i..], key, b)|
  }

  lemma SuffixStep<T>(s: seq<T>, i: nat, key: T -> nat, b: nat, radix: nat)
    requires i < |s| && b < radix && KeysBelow(s, key, radix)
    ensures Bucket(s[i..], key, b) == (if key(s[i]) == b then [s[i]] else []) + Bucket(s[i + 1..], key, b)
    ensures |Buckets(s, key, b)| <= SlotRight(s, i, key, b) && |Buckets(s, key, b + 1)| <= |s|
  {
    assert s[i..] == [s[i]] + s[i + 1..] && s == s[..i] + s[i..];
    BucketConcat([s[i]], s[i + 1..], key, b);
    BucketConcat(s[..i], s[i..], key, b);
    BucketOne(s[i], key, b);
    BucketPlace(s, key, b, radix);
    BucketsPermute(s, key, radix);
  }

  lemma PlaceOneRight<T>(dst: seq<T>, s: seq<T>, i: nat, key: T -> nat, radix: nat)
    requires i < |s| == |dst| && KeysBelow(s, key, radix) && PlacedRight(dst, s, i + 1, key, radix)
    ensures var p := SlotRight(s, i + 1, key, key(s[i])) - 1;
            0 <= p < |dst| && PlacedRight(dst[p := s[i]], s, i, key, radix)
    ensures forall b: nat :: b < radix ==>
              SlotRight(s, i, key, b) == SlotRight(s, i + 1, key, b) - if key(s[i]) == b then 1 else 0
  {
    var k, i' := key(s[i]), i + 1;
    SuffixStep(s, i, key, k, radix);
    var p := SlotRight(s, i', key, k) - 1;
    var dst' := dst[p := s[i]];
    forall b: nat | b < radix ensures InPlaceRight(dst', s, i, key, b) {
      PlaceOneRightIn(dst, s, i, key, b, radix);
    }
    forall b: nat | b < radix
      ensures SlotRight(s, i, key, b) == SlotRight(s, i', key, b) - if k == b then 1 else 0
    {
      PlaceOneRightIn(dst, s, i, key, b, radix);
    }
  }

  lemma PlaceOneRightIn<T>(dst: seq<T>, s: seq<T>, i: nat, key: T -> nat, b: nat, radix: nat)
    requires i < |s| == |dst| && KeysBelow(s, key, radix) && InPlaceRight(dst, s, i + 1, key, b) && b < radix
    ensures var p := SlotRight(s, i + 1, key, key(s[i])) - 1;
            0 <= p < |dst| && InPlaceRight(dst[p := s[i]], s, i, key, b)
    ensures SlotRight(s, i, key, b) == SlotRight(s, i + 1, key, b) - if key(s[i]) == b then 1 else 0
  {
    hide Bucket, Buckets;
    var k, i' := key(s[i]), i + 1;
    var p := SlotRight(s, i', key, k) - 1;
    SuffixStep(s, i, key, k, radix);
    SuffixStep(s, i, key, b, radix);
    if b == k {
      PutBefore(dst, p, s[i], Bucket(s[i'..], key, b));
    } else {
      PutElsewhere(dst, s, i, key, b, p, radix);
    }
  }

  lemma PutBefore<T>(dst: seq<T>, p: int, x: T, run: seq<T>)
    requires 0 <= p < |dst| && Holds(dst, p + 1, run)
    ensures Holds(dst[p := x], p, [x] + run)
  {
  }

  lemma PutElsewhere<T>(dst: seq<T>, s: seq<T>, i: nat, key: T -> nat, b: nat, p: int, radix: nat)
    requires i < |s| && KeysBelow(s, key, radix) && InPlaceRight(dst, s, i + 1, key, b) && b < radix
    requires b != key(s[i]) && |Buckets(s, key, key(s[i]))| <= p < |Buckets(s, key, key(s[i]) + 1)| && p < |dst|
    ensures InPlaceRight(dst[p := s[i]], s, i, key, b)
  {
    var k, i' := key(s[i]), i + 1;
    var run, at := Bucket(s[i'..], key, b), SlotRight(s, i', key, b);
    InPlaceIsHeld(dst, s, i', key, b, at, run);
    hide Bucket, Buckets, Holds, InPlaceRight, KeysBelow;
    assert Bucket(s[i..], key, b) == run by { SuffixStep(s, i, key, b, radix); }
    assert |Buckets(s, key, b)| <= at by { SuffixStep(s, i, key, b, radix); }
    assert p < at || p >= at + |run| by {
      if b < k { BucketsLen(s, key, b + 1, k); } else { BucketsLen(s, key, k + 1, b); }
    }
    HoldsUpdateLeft(dst, p, s[i], at, run);
    HeldIsInPlace(dst[p := s[i]], s, i, key, b, at, run);
  }

  lemma InPlaceIsHeld<T>(dst: seq<T>, s: seq<T>, i: nat, key: T -> nat, b: nat, at: int, run: seq<T>)
    requires i <= |s| && run == Bucket(s[i..], key, b) && at == SlotRight(s, i, key, b) && InPlaceRight(dst, s, i, key, b)
    ensures at >= 0 && Holds(dst, at, run) && at + |run| == |Buckets(s, key, b + 1)|
  {
  }

  lemma HeldIsInPlace<T>(dst: seq<T>, s: seq<T>, i: nat, key: T -> nat, b: nat, at: nat, run: seq<T>)
    requires i <= |s| && run == Bucket(s[i..], key, b) && at == SlotRight(s, i, key, b) && Holds(dst, at, run)
    ensures InPlaceRight(dst, s, i, key, b)
  {
  }

  lemma HoldsUpdateLeft<T>(dst: seq<T>, p: nat, x: T, at: nat, run: seq<T>)
    requires p < |dst| && Holds(dst, at, run)
    ensures p < at || p >= at + |run| ==> Holds(dst[p := x], at, run)
  {
  }

  /** Inclusive prefix sums: counts become end positions. */
  method EndPositions<T>(count: array<int>, ghost s: seq<T>, ghost key: T -> nat, radix: nat)
    requires count.Length == radix > 0
    requires forall b {:trigger count[b]} :: 0 <= b < radix ==> count[b] == |Bucket(s, key, b)|
    modifies count
    ensures forall b {:trigger count[b]} :: 0 <= b < radix ==> count[b] == |Buckets(s, key, b + 1)|
  {
    assert Buckets(s, key, 0) == [];
    for i := 1 to radix
      invariant forall k {:trigger count[k]} :: 0 <= k < i ==> count[k] == |Buckets(s, key, k + 1)|
      invariant forall k {:trigger count[k]} :: i <= k < radix ==> count[k] == |Bucket(s, key, k)|
    {
      count[i] := count[i] + count[i - 1];
    }
  }

  lemma PlacedRightNone<T>(dst: seq<T>, s: seq<T>, key: T -> nat, radix: nat)
    requires |dst| == |s| && KeysBelow(s, key, radix)
    ensures PlacedRight(dst, s, |s|, key, radix)
    ensures forall b: nat :: b < radix ==> SlotRight(s, |s|, key, b) == |Buckets(s, key, b + 1)|
  {
    assert s[|s|..] == [];
    forall b: nat | b < radix
      ensures InPlaceRight(dst, s, |s|, key, b) && SlotRight(s, |s|, key, b) == |Buckets(s, key, b + 1)|
    {
      BucketPlace(s, key, b, radix);
      BucketsPermute(s, key, radix);
    }
  }

  /** One pass of radixSortStrings: count, prefix sums, distribute right to left. */
  method StablePassRight<T>(src: array<T>, dst: array<T>, key: T -> nat, radix: nat)
    requires src != dst && src.Length == dst.Length && KeysBelow(src[..], key, radix) && radix > 0
    modifies dst
    ensures dst[..] == Buckets(src[..], key, radix)
  {
    hide Bucket, Buckets, PlacedRight;
    ghost var s := src[..];
    var count := CountKeys(src, key, radix);
    EndPositions(count, s, key, radix);
    PlacedRightNone(dst[..], s, key, radix);
    var i := src.Length;
    while i > 0
      invariant 0 <= i <= src.Length && s == src[..] && PlacedRight(dst[..], s, i, key, radix)
      invariant forall b {:trigger count[b]} :: 0 <= b < radix ==> count[b] == SlotRight(s, i, key, b)
    {
      i := i - 1;
      var b := key(src[i]);
      assert key(s[i]) < radix;
      ghost var before := dst[..];
      PlaceOneRight(before, s, i, key, radix);
      count[b] := count[b] - 1;
      dst[count[b]] := src[i];
      assert dst[..] == before[count[b] := s[i]];
    }
    RightIsPlaced(dst[..], s, key, radix);
    Assemble(dst[..], s, key, radix, radix);
    BucketsPermute(s, key, radix);
  }

  lemma RightIsPlaced<T>(dst: seq<T>, s: seq<T>, key: T -> nat, radix: nat)
    requires |dst| == |s| && PlacedRight(dst, s, 0, key, radix)
    ensures Placed(dst, s, |s|, key, radix)
  {
    assert s[0..] == s && s[..|s|] == s;
    forall b: nat | b < radix ensures InPlace(dst, s, |s|, key, b) {
      assert InPlaceRight(dst, s, 0, key, b);
    }
  }

  method BytePass(src: array<gostring>, dst: array<gostring>, pos: nat, ghost len: nat)
    requires src != dst && src.Length == dst.Length && pos < len && Ordered(src[..], FromPos(pos + 1, len))
    modifies dst
    ensures Ordered(dst[..], FromPos(pos, len)) && multiset(dst[..]) == multiset(src[..])
  {
    StablePassRight(src, dst, ByteKey(pos), 257);
    BucketsOrdered(src[..], ByteKey(pos), 257, FromPos(pos + 1, len));
    BucketsPermute(src[..], ByteKey(pos), 257);
  }

  method RadixSortStrings(ss: array<gostring>)
    modifies ss
    ensures Ordered(ss[..], LexLe) && multiset(ss[..]) == multiset(old(ss[..]))
  {
    if ss.Length < 32 {
      SmallSort(ss);
      return;
    }
    var maxLen: nat := 0;
    for i := 0 to ss.Length
      invariant forall j :: 0 <= j < i ==> |ss[j]| <= maxLen
    {
      if |ss[i]| > maxLen { maxLen := |ss[i]|; }
    }
    if maxLen == 0 {
      return;
    }
    BytePasses(ss, maxLen);
  }

  method SmallSort(ss: array<gostring>)
    modifies ss
    ensures Ordered(ss[..], LexLe) && multiset(ss[..]) == multiset(old(ss[..]))
  {
    LexIsTotalPreorder();
    LibrarySortOrdered(ss[..], LexLe);
    BagLength(LibrarySort(ss[..], LexLe), ss[..]);
    Store(ss, LibrarySort(ss[..], LexLe));
  }

  method BytePasses(ss: array<gostring>, maxLen: nat)
    requires forall j :: 0 <= j < ss.Length ==> |ss[j]| <= maxLen
    modifies ss
    ensures Ordered(ss[..], LexLe) && multiset(ss[..]) == multiset(old(ss[..]))
  {
    hide LexLe;
    var tmp := new gostring[ss.Length](_ => []);
    var src, dst := ss, tmp;
    ghost var bag := multiset(ss[..]);
    var pos := maxLen;
    while pos > 0
      invariant 0 <= pos <= maxLen && {src, dst} == {ss, tmp} && src != dst
      invariant Ordered(src[..], FromPos(pos, maxLen)) && multiset(src[..]) == bag
    {
      pos := pos - 1;
      BytePass(src, dst, pos, maxLen);
      src, dst := dst, src;
    }
    if src != ss {
      Store(ss, src[..]);
    }
    LexFromBag(old(ss[..]), ss[..], maxLen);
  }

  lemma LexFromBag(before: seq<gostring>, after: seq<gostring>, len: nat)
    requires multiset(before) == multiset(after) && forall i :: 0 <= i < |before| ==> |before[i]| <= len
    requires Ordered(after, FromPos(0, len))
    ensures Ordered(after, LexLe)
  {
    forall i | 0 <= i < |after| ensures |after[i]| <= len {
      assert after[i] in multiset(after);
      assert after[i] in before;
    }
    forall i, j | 0 <= i < j < |after| ensures LexLe(after[i], after[j]) {
      FromPosIsLex(after[i], after[j], 0, len);
      assert after[i][0..] == after[i] && after[j][0..] == after[j];
    }
  }

  /** A list has only one ordering under LexLe, so the two ways of sorting agree. */
  lemma {:induction false} SortedStringsUnique(a: seq<gostring>, b: seq<gostring>)
    requires Ordered(a, LexLe) && Ordered(b, LexLe) && multiset(a) == multiset(b)
    ensures a == b
  {
    BagLength(a, b);
    if a != [] {
      SortedHeads(a, b);
      SortedStringsUnique(a[1..], b[1..]);
    }
  }

  lemma SortedHeads(a: seq<gostring>, b: seq<gostring>)
    requires Ordered(a, LexLe) && Ordered(b, LexLe) && multiset(a) == multiset(b) && a != [] && b != []
    ensures a[0] == b[0] && a == [a[0]] + a[1..] && b == [b[0]] + b[1..] && multiset(a[1..]) == multiset(b[1..])
  {
    SameElements(a, b);
    LexLeast(a, b[0]);
    LexLeast(b, a[0]);
    LexAntisymmetric(a[0], b[0]);
    BagTail(a);
    BagTail(b);
  }

  lemma SameElements(a: seq<gostring>, b: seq<gostring>)
    requires multiset(a) == multiset(b) && a != [] && b != []
    ensures a[0] in b && b[0] in a
  {
    assert a[0] in multiset(a) && b[0] in multiset(b);
  }

  lemma BagTail(a: seq<gostring>)
    requires a != []
    ensures a == [a[0]] + a[1..] && multiset(a[1..]) == multiset(a) - multiset{a[0]}
  {
    assert a == [a[0]] + a[1..];
  }

  lemma LexLeast(a: seq<gostring>, x: gostring)
    requires Ordered(a, LexLe) && x in a
    ensures LexLe(a[0], x)
  {
    var i :| 0 <= i < |a| && a[i] == x;
    if i == 0 { LexTotal(x, x); }
  }

  // ----- per-term slices

  function TermOf(): RawPosting -> nat { (p: RawPosting) => p.termID }

  /**
   In postings sorted by (term, document), the slice between the start positions
   of t and t + 1 holds exactly the postings of t, in document order.
   */
  lemma TermSlice(ps: seq<RawPosting>, sorted: seq<RawPosting>, nTerms: nat, t: nat)
    requires Ordered(sorted, PostingLe) && multiset(sorted) == multiset(ps)
    requires KeysBelow(ps, TermOf(), nTerms) && t < nTerms
    ensures |Buckets(ps, TermOf(), t)| <= |Buckets(ps, TermOf(), t + 1)| <= |sorted|
    ensures var slice := sorted[|Buckets(ps, TermOf(), t)|..|Buckets(ps, TermOf(), t + 1)|];
            multiset(slice) == multiset(Bucket(ps, TermOf(), t))
            && (forall i :: 0 <= i < |slice| ==> slice[i].termID == t)
            && (forall i, j :: 0 <= i < j < |slice| ==> slice[i].docID <= slice[j].docID)
  {
    var key := TermOf();
    var slice := Bucket(sorted, key, t);
    SortedIsBuckets(ps, sorted, nTerms);
    BagBuckets(ps, sorted, key, t);
    BagBuckets(ps, sorted, key, t + 1);
    BucketPlace(sorted, key, t, nTerms);
    BagBucket(ps, sorted, key, t);
    SortedBucket(sorted, t);
  }

  lemma SortedIsBuckets(ps: seq<RawPosting>, sorted: seq<RawPosting>, nTerms: nat)
    requires Ordered(sorted, PostingLe) && multiset(sorted) == multiset(ps) && KeysBelow(ps, TermOf(), nTerms)
    ensures KeysBelow(sorted, TermOf(), nTerms) && Buckets(sorted, TermOf(), nTerms) == sorted
  {
    forall i | 0 <= i < |sorted| ensures TermOf()(sorted[i]) < nTerms {
      assert sorted[i] in multiset(ps);
      var j :| 0 <= j < |ps| && ps[j] == sorted[i];
    }
    OrderedIsBuckets(sorted, TermOf(), nTerms);
  }

  lemma SortedBucket(sorted: seq<RawPosting>, t: nat)
    requires Ordered(sorted, PostingLe)
    ensures var slice := Bucket(sorted, TermOf(), t);
            (forall i :: 0 <= i < |slice| ==> slice[i].termID == t)
            && (forall i, j :: 0 <= i < j < |slice| ==> slice[i].docID <= slice[j].docID)
  {
    BucketKeys(sorted, TermOf(), t);
    BucketOrdered(sorted, TermOf(), t, PostingLe);
    var slice := Bucket(sorted, TermOf(), t);
    assert forall i :: 0 <= i < |slice| ==> slice[i] in slice;
  }

  /** Buckets depend on the elements only, not on their order. */
  lemma BagBucket(a: seq<RawPosting>, b: seq<RawPosting>, key: RawPosting -> nat, k: nat)
    requires multiset(a) == multiset(b)
    ensures multiset(Bucket(a, key, k)) == multiset(Bucket(b, key, k))
    ensures |Bucket(a, key, k)| == |Bucket(b, key, k)|
  {
    forall x: RawPosting ensures multiset(Bucket(a, key, k))[x] == multiset(Bucket(b, key, k))[x] {
      BucketCount(a, key, k, x);
      BucketCount(b, key, k, x);
    }
    BagLength(Bucket(a, key, k), Bucket(b, key, k));
  }

  lemma {:induction false} BucketCount(s: seq<RawPosting>, key: RawPosting -> nat, k: nat, x: RawPosting)
    ensures multiset(Bucket(s, key, k))[x] == if key(x) == k then multiset(s)[x] else 0
  {
    if s != [] {
      BucketCount(s[..|s| - 1], key, k, x);
      assert s == s[..|s| - 1] + [s[|s| - 1]];
    }
  }

  lemma {:induction false} BagBuckets(a: seq<RawPosting>, b: seq<RawPosting>, key: RawPosting -> nat, n: nat)
    requires multiset(a) == multiset(b)
    ensures |Buckets(a, key, n)| == |Buckets(b, key, n)|
  {
    hide Bucket;
    if n > 0 {
      BagBuckets(a, b, key, n - 1);
      BagBucket(a, b, key, n - 1);
    }
  }
}
