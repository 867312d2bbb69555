/** Sequences, sets and the library's heaps: what several modules need of them. */
module Collections {
  ghost predicate Distinct<T>(s: seq<T>) {
    forall i, j :: 0 <= i < j < |s| ==> s[i] != s[j]
  }

  lemma SubsetCount<T>(a: set<T>, b: set<T>)
    requires a <= b
    ensures |a| <= |b|
  {
    assert b == a + (b - a);
  }

  lemma SubsetSame<T>(a: set<T>, b: set<T>)
    requires a <= b && |a| == |b|
    ensures a == b
  {
    assert b == a + (b - a);
  }

  ghost predicate TotalPreorder<T(!new)>(le: (T, T) -> bool) {
    && (forall x, y :: le(x, y) || le(y, x))
    && (forall x, y, z :: le(x, y) && le(y, z) ==> le(x, z))
  }

  // ----- container/heap

  ghost predicate RootLeast<T>(h: seq<T>, le: (T, T) -> bool) {
    forall i :: 0 <= i < |h| ==> le(h[0], h[i])
  }

  /** Bring a least element to the root: all that is used of the library's sifting. */
  method Settle<T(!new)>(h: seq<T>, le: (T, T) -> bool) returns (s: seq<T>)
    requires TotalPreorder(le)
    ensures RootLeast(s, le) && multiset(s) == multiset(h)
  {
    if h == [] { return h; }
    var m := 0;
    for i := 1 to |h|
      invariant m < |h| && forall j :: 0 <= j < i ==> le(h[m], h[j])
    {
      if !le(h[m], h[i]) {
        m := i;
      }
    }
    s := h[0 := h[m]][m := h[0]];
  }

  /** Take the least element off. */
  method PopLeast<T(!new)>(h: seq<T>, le: (T, T) -> bool) returns (x: T, h': seq<T>)
    requires TotalPreorder(le) && h != [] && RootLeast(h, le)
    ensures x == h[0] && RootLeast(h', le) && |h'| == |h| - 1 && multiset(h) == multiset(h') + multiset{x}
    ensures forall j :: 0 <= j < |h'| ==> h'[j] in h && le(x, h'[j])
  {
    x := h[0];
    assert h == [h[0]] + h[1..];
    h' := Settle(h[1..], le);
    assert |multiset(h')| == |h'| && |multiset(h[1..])| == |h| - 1;
    forall j | 0 <= j < |h'| ensures h'[j] in h && le(x, h'[j]) {
      assert h'[j] in multiset(h[1..]);
    }
  }
}
