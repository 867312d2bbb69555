/**
 Consistent hashing of documents to shards (internal/cluster/ring.go). Where a
 vnode or a document lands on the ring is a parameter.
 */
module HashRing {
  import opened Bits

  const RING_SIZE: nat := 0x1_0000_0000

  /** Positions of vnode k of a shard, and of a document: ringHash of their names. */
  datatype Placement = Placement(vnode: (nat, nat) -> u32, doc: gostring -> u32)

  // ----- what routing means

  /** How far clockwise a token lies from a position. */
  function Clockwise(from: u32, token: u32): nat {
    if token >= from then token - from else token + RING_SIZE - from
  }

  /** Some vnode of the shard is the first one clockwise from position h. */
  ghost predicate IsOwner(p: Placement, nShards: nat, vnodes: nat, h: u32, shard: nat) {
    exists k: nat :: k < vnodes && IsNext(p, nShards, vnodes, h, shard, k)
  }

  ghost predicate IsNext(p: Placement, nShards: nat, vnodes: nat, h: u32, shard: nat, k: nat) {
    shard < nShards
    && forall s: nat, j: nat {:trigger p.vnode(s, j)} :: s < nShards && j < vnodes ==>
         Clockwise(h, p.vnode(shard, k)) <= Clockwise(h, p.vnode(s, j))
  }

  /** No two vnodes share a token. */
  ghost predicate DistinctTokens(p: Placement, nShards: nat, vnodes: nat) {
    forall s: nat, j: nat, s': nat, j': nat {:trigger p.vnode(s, j), p.vnode(s', j')} ::
      s < nShards && s' < nShards && j < vnodes && j' < vnodes && p.vnode(s, j) == p.vnode(s', j') ==> s == s' && j == j'
  }

  /** Going that far clockwise from a position, around the ring of 2^32, leads to the token. */
  lemma ClockwiseIs(from: u32, token: u32)
    ensures Clockwise(from, token) < 0x1_0000_0000 && (from + Clockwise(from, token)) % 0x1_0000_0000 == token
  {
  }

  /** Different tokens are at different distances. */
  lemma ClockwiseInjective(h: u32, a: u32, b: u32)
    requires Clockwise(h, a) == Clockwise(h, b)
    ensures a == b
  {
  }

  /** With distinct tokens every position has one owner. */
  lemma OwnerUnique(p: Placement, nShards: nat, vnodes: nat, h: u32, a: nat, b: nat)
    requires DistinctTokens(p, nShards, vnodes) && IsOwner(p, nShards, vnodes, h, a) && IsOwner(p, nShards, vnodes, h, b)
    ensures a == b
  {
    var i: nat :| i < vnodes && IsNext(p, nShards, vnodes, h, a, i);
    var j: nat :| j < vnodes && IsNext(p, nShards, vnodes, h, b, j);
    ClockwiseInjective(h, p.vnode(a, i), p.vnode(b, j));
  }

  /** One more shard takes documents only for itself: every document stays or moves to the new shard. */
  lemma GrowthMovesToNewShard(p: Placement, nShards: nat, vnodes: nat, h: u32, before: nat, after: nat)
    requires DistinctTokens(p, nShards, vnodes)
    requires IsOwner(p, nShards, vnodes, h, before) && IsOwner(p, nShards + 1, vnodes, h, after)
    ensures after == before || after == nShards
  {
    if after < nShards {
      var k: nat :| k < vnodes && IsNext(p, nShards + 1, vnodes, h, after, k);
      assert IsNext(p, nShards, vnodes, h, after, k);
      OwnerUnique(p, nShards, vnodes, h, before, after);
    }
  }

  // ----- the ring

  /** Slot i is vnode some k of shard ids[i]. */
  ghost predicate SlotOf(p: Placement, token: u32, shard: nat, nShards: nat, vnodes: nat) {
    exists k: nat :: shard < nShards && k < vnodes && p.vnode(shard, k) == token
  }

  ghost predicate Slots(p: Placement, tokens: seq<u32>, ids: seq<nat>, nShards: nat, vnodes: nat) {
    |tokens| == |ids| && forall i :: 0 <= i < |tokens| ==> SlotOf(p, tokens[i], ids[i], nShards, vnodes)
  }

  ghost predicate InRing(tokens: seq<u32>, ids: seq<nat>, token: u32, shard: nat) {
    exists i :: 0 <= i < |tokens| && i < |ids| && tokens[i] == token && ids[i] == shard
  }

  /** Every vnode of every shard has a slot. */
  ghost predicate Complete(p: Placement, tokens: seq<u32>, ids: seq<nat>, nShards: nat, vnodes: nat) {
    forall s: nat, j: nat {:trigger p.vnode(s, j)} :: s < nShards && j < vnodes ==> InRing(tokens, ids, p.vnode(s, j), s)
  }

  ghost predicate Ascending(tokens: seq<u32>) {
    forall i, j :: 0 <= i < j < |tokens| ==> tokens[i] <= tokens[j]
  }

  class ConsistentRing {
    const tokens: array<u32>
    const ids: array<nat>

    ghost predicate Valid(p: Placement, nShards: nat, vnodes: nat)
      reads tokens, ids
    {
      && tokens.Length == ids.Length
      && Slots(p, tokens[..], ids[..], nShards, vnodes) && Complete(p, tokens[..], ids[..], nShards, vnodes)
      && Ascending(tokens[..])
    }

    constructor (tokens: array<u32>, ids: array<nat>)
      ensures this.tokens == tokens && this.ids == ids
    {
      this.tokens, this.ids := tokens, ids;
    }

    function Len(): nat { tokens.Length }

    predicate Less(i: nat, j: nat)
      requires i < tokens.Length && j < tokens.Length
      reads tokens
    {
      tokens[i] < tokens[j]
    }

    /** Tokens and owners move together. */
    method Swap(i: nat, j: nat)
      requires i < tokens.Length == ids.Length && j < tokens.Length
      modifies tokens, ids
      ensures tokens[..] == old(tokens[..])[i := old(tokens[j])][j := old(tokens[i])]
      ensures ids[..] == old(ids[..])[i := old(ids[j])][j := old(ids[i])]
    {
      tokens[i], tokens[j] := tokens[j], tokens[i];
      ids[i], ids[j] := ids[j], ids[i];
    }

    /** sort.Sort, by swaps only; which order equal tokens end in is the library's choice. */
    method Sort(ghost p: Placement, ghost nShards: nat, ghost vnodes: nat)
      requires tokens.Length == ids.Length
      requires Slots(p, tokens[..], ids[..], nShards, vnodes) && Complete(p, tokens[..], ids[..], nShards, vnodes)
      modifies tokens, ids
      ensures Valid(p, nShards, vnodes)
    {
      hide Slots, Complete;
      for n := 0 to Len()
        invariant Slots(p, tokens[..], ids[..], nShards, vnodes) && Complete(p, tokens[..], ids[..], nShards, vnodes)
        invariant Ascending(tokens[..n]) && forall i, j :: 0 <= i < n <= j < tokens.Length ==> tokens[i] <= tokens[j]
      {
        var m := LeastFrom(n);
        SwapKeeps(p, tokens[..], ids[..], nShards, vnodes, n, m);
        Swap(n, m);
      }
      assert tokens[..tokens.Length] == tokens[..];
    }

    method LeastFrom(n: nat) returns (m: nat)
      requires n < tokens.Length
      ensures n <= m < tokens.Length && forall j :: n <= j < tokens.Length ==> tokens[m] <= tokens[j]
    {
      m := n;
      for i := n to tokens.Length
        invariant n <= m < tokens.Length && forall j :: n <= j < i ==> tokens[m] <= tokens[j]
      {
        if Less(i, m) {
          m := i;
        }
      }
    }

    /** sort.Search: the first token at or after hash. */
    method Search(hash: u32) returns (i: nat)
      requires Ascending(tokens[..])
      ensures i <= tokens.Length && (forall j :: 0 <= j < i ==> tokens[j] < hash) && (i < tokens.Length ==> tokens[i] >= hash)
    {
      i := 0;
      var hi := tokens.Length;
      while i < hi
        invariant 0 <= i <= hi <= tokens.Length
        invariant forall j :: 0 <= j < i ==> tokens[j] < hash
        invariant forall j :: hi <= j < tokens.Length ==> tokens[j] >= hash
      {
        var mid := (i + hi) / 2;
        assert forall j :: 0 <= j < mid ==> tokens[..][j] <= tokens[..][mid];
        if tokens[mid] >= hash {
          assert forall j :: mid <= j < tokens.Length ==> tokens[..][mid] <= tokens[..][j];
          hi := mid;
        } else {
          i := mid + 1;
        }
      }
    }

    /** The owner of the clockwise successor token, around the end of the ring when need be. */
    method ShardFor(p: Placement, docID: gostring, ghost nShards: nat, ghost vnodes: nat) returns (shard: nat)
      requires Valid(p, nShards, vnodes) && tokens.Length > 0
      ensures IsOwner(p, nShards, vnodes, p.doc(docID), shard)
    {
      hide Slots, Complete;
      var hash := p.doc(docID);
      var i := Search(hash);
      if i >= tokens.Length {
        i := 0;
      }
      Nearest(p, tokens[..], ids[..], nShards, vnodes, hash, i);
      shard := ids[i];
    }
  }

  lemma SwapKeeps(p: Placement, tokens: seq<u32>, ids: seq<nat>, nShards: nat, vnodes: nat, i: nat, j: nat)
    requires i < |tokens| == |ids| && j < |tokens|
    requires Slots(p, tokens, ids, nShards, vnodes) && Complete(p, tokens, ids, nShards, vnodes)
    ensures var tokens', ids' := tokens[i := tokens[j]][j := tokens[i]], ids[i := ids[j]][j := ids[i]];
            Slots(p, tokens', ids', nShards, vnodes) && Complete(p, tokens', ids', nShards, vnodes)
  {
    hide SlotOf;
    var tokens', ids' := tokens[i := tokens[j]][j := tokens[i]], ids[i := ids[j]][j := ids[i]];
    forall s: nat, k: nat | s < nShards && k < vnodes ensures InRing(tokens', ids', p.vnode(s, k), s) {
      assert InRing(tokens, ids, p.vnode(s, k), s);
      var at :| 0 <= at < |tokens| && tokens[at] == p.vnode(s, k) && ids[at] == s;
      var at' := if at == i then j else if at == j then i else at;
      assert tokens'[at'] == tokens[at] && ids'[at'] == ids[at];
    }
  }

  /** The slot the search picks is the clockwise nearest of all. */
  lemma Nearest(p: Placement, tokens: seq<u32>, ids: seq<nat>, nShards: nat, vnodes: nat, h: u32, i: nat)
    requires Slots(p, tokens, ids, nShards, vnodes) && Complete(p, tokens, ids, nShards, vnodes) && Ascending(tokens)
    requires i < |tokens|
    requires (tokens[i] >= h && forall j :: 0 <= j < i ==> tokens[j] < h) || (i == 0 && forall j :: 0 <= j < |tokens| ==> tokens[j] < h)
    ensures IsOwner(p, nShards, vnodes, h, ids[i])
  {
    forall j | 0 <= j < |tokens| ensures Clockwise(h, tokens[i]) <= Clockwise(h, tokens[j]) {
    }
    assert SlotOf(p, tokens[i], ids[i], nShards, vnodes);
    var k: nat :| ids[i] < nShards && k < vnodes && p.vnode(ids[i], k) == tokens[i];
    forall s: nat, m: nat | s < nShards && m < vnodes ensures Clockwise(h, p.vnode(ids[i], k)) <= Clockwise(h, p.vnode(s, m)) {
      assert InRing(tokens, ids, p.vnode(s, m), s);
    }
    assert IsNext(p, nShards, vnodes, h, ids[i], k);
  }

  /** BuildConsistentRing; vnodes <= 0 means 150. */
  method BuildConsistentRing(p: Placement, nShards: nat, vnodes: int) returns (r: ConsistentRing, ghost v: nat)
    ensures v == if vnodes <= 0 then 150 else vnodes
    ensures fresh(r.tokens) && fresh(r.ids) && r.Valid(p, nShards, v) && (r.tokens.Length > 0 <==> nShards > 0)
  {
    var perShard: nat := if vnodes <= 0 then 150 else vnodes;
    v := perShard;
    var tokenList, idList := Vnodes(p, nShards, perShard);
    var tokens, ids := new u32[|tokenList|](_ => 0), new nat[|idList|](_ => 0);
    for i := 0 to |tokenList|
      invariant tokens[..i] == tokenList[..i] && ids[..i] == idList[..i]
    {
      tokens[i], ids[i] := tokenList[i], idList[i];
    }
    assert tokens[..] == tokenList && ids[..] == idList;
    r := new ConsistentRing(tokens, ids);
    r.Sort(p, nShards, perShard);
  }

  /** Position shard * vnodes + k holds vnode k of the shard. */
  method Vnodes(p: Placement, nShards: nat, vnodes: nat) returns (tokens: seq<u32>, ids: seq<nat>)
    requires vnodes > 0
    ensures Slots(p, tokens, ids, nShards, vnodes) && Complete(p, tokens, ids, nShards, vnodes)
    ensures |tokens| > 0 <==> nShards > 0
  {
    tokens, ids := [], [];
    for shard := 0 to nShards
      invariant Slots(p, tokens, ids, nShards, vnodes) && Complete(p, tokens, ids, shard, vnodes)
      invariant |tokens| > 0 <==> shard > 0
    {
      ghost var before, owners := tokens, ids;
      for k := 0 to vnodes
        invariant Slots(p, tokens, ids, nShards, vnodes) && before <= tokens && owners <= ids
        invariant forall j: nat {:trigger p.vnode(shard, j)} :: j < k ==> InRing(tokens, ids, p.vnode(shard, j), shard)
        invariant |tokens| >= k
      {
        tokens, ids := AddVnode(p, tokens, ids, nShards, vnodes, shard, k);
      }
      forall s: nat, j: nat | s < shard + 1 && j < vnodes ensures InRing(tokens, ids, p.vnode(s, j), s) {
        if s < shard { StaysInRing(before, owners, tokens, ids, p.vnode(s, j), s); }
      }
    }
  }

  lemma StaysInRing(tokens: seq<u32>, ids: seq<nat>, tokens': seq<u32>, ids': seq<nat>, token: u32, shard: nat)
    requires tokens <= tokens' && ids <= ids' && InRing(tokens, ids, token, shard)
    ensures InRing(tokens', ids', token, shard)
  {
    var i :| 0 <= i < |tokens| && i < |ids| && tokens[i] == token && ids[i] == shard;
    assert tokens'[i] == token && ids'[i] == shard;
  }

  method AddVnode(p: Placement, tokens: seq<u32>, ids: seq<nat>, ghost nShards: nat, ghost vnodes: nat, shard: nat, k: nat)
    returns (tokens': seq<u32>, ids': seq<nat>)
    requires Slots(p, tokens, ids, nShards, vnodes) && shard < nShards && k < vnodes
    ensures Slots(p, tokens', ids', nShards, vnodes) && tokens <= tokens' && ids <= ids' && |tokens'| == |tokens| + 1
    ensures InRing(tokens', ids', p.vnode(shard, k), shard)
    ensures forall token, s :: InRing(tokens, ids, token, s) ==> InRing(tokens', ids', token, s)
  {
    tokens', ids' := tokens + [p.vnode(shard, k)], ids + [shard];
    assert tokens'[|tokens|] == p.vnode(shard, k) && ids'[|ids|] == shard;
    forall token, s | InRing(tokens, ids, token, s) ensures InRing(tokens', ids', token, s) {
      StaysInRing(tokens, ids, tokens', ids', token, s);
    }
    forall i | 0 <= i < |tokens'| ensures SlotOf(p, tokens'[i], ids'[i], nShards, vnodes) {
    }
  }

  /** Routing before and after a shard is added. */
  method RouteAcrossGrowth(p: Placement, nShards: nat, vnodes: int, docID: gostring) returns (before: nat, after: nat)
    requires nShards > 0 && DistinctTokens(p, nShards, if vnodes <= 0 then 150 else vnodes)
    ensures before < nShards && (after == before || after == nShards)
  {
    var small, v := BuildConsistentRing(p, nShards, vnodes);
    before := small.ShardFor(p, docID, nShards, v);
    var large, w := BuildConsistentRing(p, nShards + 1, vnodes);
    after := large.ShardFor(p, docID, nShards + 1, w);
    GrowthMovesToNewShard(p, nShards, v, p.doc(docID), before, after);
  }
}
