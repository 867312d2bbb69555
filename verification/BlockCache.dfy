/** The shared cache of decoded blocks (internal/index/blockcache.go). */
module BlockCache {
  import opened Options

  /** A decoded block: its deltas and frequencies and the bytes each took. */
  datatype CachedBlock = CachedBlock(docBuf: seq<nat>, tfBuf: seq<nat>, docBytes: nat, tfBytes: nat)

  const U32: nat := 0x1_0000_0000

  /** uint64(uint32(termOrd))<<32 | uint64(uint32(blockIdx)). */
  function Key(termOrd: nat, blockIdx: int): nat {
    (termOrd % U32) * U32 + blockIdx % U32
  }

  /** Ordinals and block numbers below 2^32 never share a key. */
  lemma KeyInjective(t: nat, b: nat, t': nat, b': nat)
    requires t < U32 && b < U32 && t' < U32 && b' < U32
    ensures Key(t, b) == Key(t', b') ==> t == t' && b == b'
  {
    assert Key(t, b) / U32 == t && Key(t, b) % U32 == b;
    assert Key(t', b') / U32 == t' && Key(t', b') % U32 == b';
  }

  /**
   A partial map: any entry may be evicted at any time, so nothing depends on
   the eviction order. truth holds what decoding gives for every key in use.
   */
  class BlockCache {
    var lru: map<nat, CachedBlock>
    ghost const truth: map<nat, CachedBlock>

    /** Every cached block agrees with decoding. */
    ghost predicate Consistent()
      reads this
    {
      forall k :: k in lru ==> k in truth && lru[k] == truth[k]
    }

    constructor (ghost truth: map<nat, CachedBlock>)
      ensures Consistent() && lru == map[] && this.truth == truth
    {
      lru := map[];
      this.truth := truth;
    }

    /** A hit is what decoding the block gives, whatever was set and evicted before. */
    method Get(termOrd: nat, blockIdx: int) returns (entry: Option<CachedBlock>)
      requires Consistent()
      ensures entry.Some? ==> Key(termOrd, blockIdx) in truth && entry.value == truth[Key(termOrd, blockIdx)]
      ensures entry.Some? <==> Key(termOrd, blockIdx) in lru
    {
      var k := Key(termOrd, blockIdx);
      entry := if k in lru then Some(lru[k]) else None;
    }

    /** Adds the entry; whatever the cache had room for stays. */
    method Set(termOrd: nat, blockIdx: int, e: CachedBlock)
      requires Consistent()
      requires Key(termOrd, blockIdx) in truth && truth[Key(termOrd, blockIdx)] == e
      modifies this
      ensures Consistent()
      ensures Key(termOrd, blockIdx) in lru && lru[Key(termOrd, blockIdx)] == e
      ensures forall k :: k in lru && k != Key(termOrd, blockIdx) ==> k in old(lru) && lru[k] == old(lru[k])
    {
      var kept: set<nat> :| kept <= lru.Keys;
      lru := (map k | k in kept :: lru[k])[Key(termOrd, blockIdx) := e];
    }
  }
}
