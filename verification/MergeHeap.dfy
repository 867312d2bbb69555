/** The heap of the k-way term merge (internal/segment/merge.go): least term first, then least iterator. */
module MergeHeap {
  import opened Bits
  import opened Collections
  import opened RadixSort

  datatype Item = Item(term: gostring, iterIdx: nat)

  /** mergeHeap.Less, or the same item. */
  predicate ItemLe(a: Item, b: Item) {
    if a.term != b.term then LexLe(a.term, b.term) else a.iterIdx <= b.iterIdx
  }

  lemma ItemOrder(a: Item, b: Item, c: Item)
    ensures ItemLe(a, b) || ItemLe(b, a)
    ensures ItemLe(a, b) && ItemLe(b, c) ==> ItemLe(a, c)
  {
    LexTotal(a.term, b.term);
    if ItemLe(a, b) && ItemLe(b, c) && a.term != b.term && b.term != c.term {
      LexTransitive(a.term, b.term, c.term);
      if a.term == c.term { LexAntisymmetric(a.term, b.term); }
    }
  }

  lemma ItemsOrdered()
    ensures TotalPreorder(ItemLe)
  {
    hide ItemLe;
    forall x, y ensures ItemLe(x, y) || ItemLe(y, x) { ItemOrder(x, y, y); }
    forall x, y, z | ItemLe(x, y) && ItemLe(y, z) ensures ItemLe(x, z) { ItemOrder(x, y, z); }
  }

  ghost predicate RootLeast(h: seq<Item>) {
    Collections.RootLeast(h, ItemLe)
  }

  method Push(h: seq<Item>, x: Item) returns (h': seq<Item>)
    ensures RootLeast(h') && multiset(h') == multiset(h) + multiset{x}
  {
    ItemsOrdered();
    h' := Settle(h + [x], ItemLe);
  }

  method Pop(h: seq<Item>) returns (x: Item, h': seq<Item>)
    requires h != [] && RootLeast(h)
    ensures x == h[0] && RootLeast(h') && multiset(h) == multiset(h') + multiset{x}
  {
    ItemsOrdered();
    x, h' := PopLeast(h, ItemLe);
  }
}
