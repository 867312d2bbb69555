/**
 The posting iterator (internal/index/postings.go): a cursor over packed blocks
 that is shown to behave as a cursor over the plain list.
 */
module PostingIter {
  import opened Options
  import opened Bits
  import opened BlockPack
  import opened PostingFormat
  import opened Skips = SkipList
  import opened BlockCache

  /** The first posting at or after index from whose document is at least target, or |ps|. */
  function FirstReaching(ps: seq<Posting>, from: nat, target: nat): (i: nat)
    requires from <= |ps|
    ensures from <= i <= |ps|
    ensures forall k :: from <= k < i ==> ps[k].doc < target
    ensures i < |ps| ==> ps[i].doc >= target
    decreases |ps| - from
  {
    if from == |ps| || ps[from].doc >= target then from else FirstReaching(ps, from + 1, target)
  }

  function BlockLen(df: nat, b: nat): nat
    requires 128 * b <= df
  {
    if 128 * b + 128 <= df then 128 else df - 128 * b
  }

  /** What decoding block b of a full list gives, as the cache stores it. */
  ghost function DecodedBlock(ps: seq<Posting>, b: nat): CachedBlock
    requires ValidList(ps) && b < FullBlocks(ps)
  {
    CachedBlock(Deltas(ps, b), Tfs(ps, b), TfOffset(ps, b) - Offset(ps, b), Offset(ps, b + 1) - TfOffset(ps, b))
  }

  lemma DecodedBlockIs(ps: seq<Posting>, b: nat)
    requires ValidList(ps) && b < FullBlocks(ps)
    ensures Offset(ps, b) <= TfOffset(ps, b) <= Offset(ps, b + 1)
    ensures DecodedBlock(ps, b) ==
            CachedBlock(Deltas(ps, b), Tfs(ps, b), TfOffset(ps, b) - Offset(ps, b), Offset(ps, b + 1) - TfOffset(ps, b))
  {
    hide ValidList, Block, Deltas, Tfs;
  }

  class PostingIter {
    const data: seq<byte>
    const skip: Option<SkipList>
    const df: nat
    const termOrd: nat
    const blockCache: BlockCache?
    const docBuf: array<nat>
    const tfBuf: array<nat>
    ghost const list: seq<Posting>

    var pos: nat
    var base: nat
    var currDoc: nat
    var currTF: nat
    var read: nat
    var blockIdx: int
    var shallowIdx: nat
    var bufPos: nat
    var bufLen: nat

    /** The objects an operation on this iterator may change, besides the cache. */
    ghost function Repr(): set<object> { {this, docBuf, tfBuf} }

    ghost function CacheSet(): set<object> { if blockCache == null then {} else {blockCache} }

    /** What never changes: the bytes encode list, and skip and the cache speak of the same list. */
    ghost predicate Fixed() {
      && ValidList(list) && data == EncodeList(list) && df == |list|
      && docBuf.Length == tfBuf.Length == BLOCK_SIZE && docBuf != tfBuf
      && (skip.Some? ==> Describes(skip.value, list))
      && (blockCache != null ==>
            forall b {:trigger Key(termOrd, b)} :: 0 <= b < FullBlocks(list) ==>
              Key(termOrd, b) in blockCache.truth && blockCache.truth[Key(termOrd, b)] == DecodedBlock(list, b))
    }

    /** The buffers hold block blockIdx, from which bufPos entries have been taken. */
    ghost predicate Loaded()
      requires Fixed()
      reads this, docBuf, tfBuf
    {
      && 0 <= blockIdx && 128 * blockIdx < df && bufLen == BlockLen(df, blockIdx) && bufPos <= bufLen
      && read == 128 * blockIdx + bufPos
      && (128 * blockIdx + 128 <= df ==> pos == Offset(list, blockIdx + 1))
      && (128 * blockIdx + 128 > df ==> pos == |data|)
      && (forall j :: 0 <= j < bufLen ==> docBuf[j] == Delta(list, 128 * blockIdx + j))
      && (forall j :: 0 <= j < bufLen ==> tfBuf[j] == list[128 * blockIdx + j].tf)
    }

    /** The next block to load is blockIdx + 1. */
    ghost predicate Empty()
      requires Fixed()
      reads this
    {
      && bufPos == bufLen == 0 && blockIdx >= -1
      && read == 128 * (blockIdx + 1) <= df && pos == Offset(list, blockIdx + 1)
    }

    ghost predicate Cursor()
      requires Fixed()
      reads this, docBuf, tfBuf
    {
      && (Loaded() || Empty()) && read <= df && base == Base(list, read)
      && (skip.Some? ==> shallowIdx <= FullBlocks(list))
    }

    /** read postings have been taken and the last of them is the current one. */
    ghost predicate Valid()
      reads this, docBuf, tfBuf
    {
      && Fixed() && Cursor()
      && blockIdx == (if read == 0 then -1 else (read - 1) / 128)
      && (read == 0 ==> currDoc == 0)
      && (read > 0 ==> currDoc == list[read - 1].doc && currTF == list[read - 1].tf)
    }

    ghost predicate CacheOk()
      reads if blockCache == null then {} else {blockCache}
    {
      blockCache != null ==> blockCache.Consistent()
    }

    constructor (data: seq<byte>, skip: Option<SkipList>, df: nat, cache: BlockCache?, termOrd: nat, ghost list: seq<Posting>)
      requires ValidList(list) && data == EncodeList(list) && df == |list|
      requires skip.Some? ==> Describes(skip.value, list)
      requires cache != null ==>
            forall b {:trigger Key(termOrd, b)} :: 0 <= b < FullBlocks(list) ==>
              Key(termOrd, b) in cache.truth && cache.truth[Key(termOrd, b)] == DecodedBlock(list, b)
      ensures Valid() && fresh(Repr()) && this.list == list && read == 0 && shallowIdx == 0
      ensures this.skip == skip && this.blockCache == cache
    {
      this.data, this.skip, this.df, this.blockCache, this.termOrd, this.list := data, skip, df, cache, termOrd, list;
      pos, base, currDoc, currTF, read, blockIdx, shallowIdx, bufPos, bufLen := 0, 0, 0, 0, 0, -1, 0, 0, 0;
      docBuf, tfBuf := new nat[BLOCK_SIZE], new nat[BLOCK_SIZE];
      new;
      assert Offset(list, 0) == 0;
    }

    /** The frame of the loaders: everything but the buffers, pos, bufPos and bufLen. */
    twostate predicate OnlyBuffers()
      reads this
    {
      && base == old(base) && currDoc == old(currDoc) && currTF == old(currTF) && read == old(read)
      && blockIdx == old(blockIdx) && shallowIdx == old(shallowIdx)
    }

    /** Decode the block at pos, which is number blockIdx, into the buffers. */
    method LoadBlock()
      requires Fixed() && CacheOk() && 0 <= blockIdx && read == 128 * blockIdx <= df
      requires pos == Offset(list, blockIdx)
      modifies this, docBuf, tfBuf, CacheSet()
      ensures CacheOk() && OnlyBuffers() && bufPos == 0
      ensures if read < df then Loaded() else bufLen == 0 && pos == old(pos)
    {
      hide Blocks, EncodeList, Describes, ValidList, Offset, Block;
      var remaining := df - read;
      if remaining <= 0 {
        bufPos, bufLen := 0, 0;
        return;
      }
      if remaining >= BLOCK_SIZE {
        LoadFull();
      } else {
        LoadTail(remaining);
      }
      bufPos := 0;
    }

    /** A full block: from the cache when it holds it, otherwise decoded and then cached. */
    method LoadFull()
      requires Fixed() && CacheOk() && 0 <= blockIdx < FullBlocks(list)
      requires pos == Offset(list, blockIdx)
      modifies this, docBuf, tfBuf, CacheSet()
      ensures CacheOk() && OnlyBuffers() && bufLen == 128 && pos == Offset(list, blockIdx + 1)
      ensures docBuf[..] == Deltas(list, blockIdx) && tfBuf[..] == Tfs(list, blockIdx)
    {
      hide Deltas, Tfs, TfOffset, Offset, ValidList, EncodeList, Describes;
      if blockCache != null {
        var entry := blockCache.Get(termOrd, blockIdx);
        if entry.Some? {
          assert entry.value == DecodedBlock(list, blockIdx);
          CopyInto(docBuf, entry.value.docBuf);
          CopyInto(tfBuf, entry.value.tfBuf);
          pos := pos + entry.value.docBytes + entry.value.tfBytes;
          bufLen := BLOCK_SIZE;
        } else {
          var docN, tfN := DecodeFull();
          blockCache.Set(termOrd, blockIdx, CachedBlock(docBuf[..], tfBuf[..], docN, tfN));
        }
      } else {
        var _, _ := DecodeFull();
      }
    }

    /** Both halves of a full block through the decoder. */
    method DecodeFull() returns (docN: nat, tfN: nat)
      requires ValidList(list) && data == EncodeList(list) && docBuf != tfBuf && docBuf.Length == tfBuf.Length == BLOCK_SIZE
      requires 0 <= blockIdx < FullBlocks(list) && pos == Offset(list, blockIdx)
      modifies this, docBuf, tfBuf
      ensures OnlyBuffers() && bufLen == 128 && pos == Offset(list, blockIdx + 1)
      ensures CachedBlock(docBuf[..], tfBuf[..], docN, tfN) == DecodedBlock(list, blockIdx)
    {
      hide Blocks, EncodeList, Describes, Offset, ValidList, Deltas, Tfs, TfOffset, HoldsBlock, DecodedBlock;
      ghost var b, tfAt, end := blockIdx, TfOffset(list, blockIdx), Offset(list, blockIdx + 1);
      ghost var deltas, tfs := Deltas(list, b), Tfs(list, b);
      BlockAt(list, b);
      DecodedBlockIs(list, b);
      var at := pos;
      pos := ReadBlock(data, pos, docBuf, deltas, tfAt);
      docN := pos - at;
      at := pos;
      pos := ReadBlock(data, pos, tfBuf, tfs, end);
      tfN := pos - at;
      bufLen := BLOCK_SIZE;
    }

    /** The partial tail: interleaved varint pairs. */
    method LoadTail(remaining: nat)
      requires ValidList(list) && data == EncodeList(list) && df == |list|
      requires docBuf != tfBuf && docBuf.Length == tfBuf.Length == BLOCK_SIZE
      requires 0 <= blockIdx == FullBlocks(list) && 128 * blockIdx + remaining == df
      requires pos == Offset(list, blockIdx)
      modifies this, docBuf, tfBuf
      ensures OnlyBuffers() && bufLen == remaining && pos == |data|
      ensures forall j :: 0 <= j < bufLen ==> docBuf[j] == Delta(list, 128 * blockIdx + j)
      ensures forall j :: 0 <= j < bufLen ==> tfBuf[j] == list[128 * blockIdx + j].tf
    {
      hide Blocks, EncodeList, Describes, Offset, TailOffset, ValidList, Delta;
      ghost var lo := 128 * blockIdx;
      TailEnds(list);
      for i := 0 to remaining
        invariant OnlyBuffers() && pos == TailOffset(list, lo + i)
        invariant forall j :: 0 <= j < i ==> docBuf[j] == Delta(list, lo + j)
        invariant forall j :: 0 <= j < i ==> tfBuf[j] == list[lo + j].tf
      {
        var delta, tf;
        ghost var k := lo + i;
        delta, tf, pos := ReadPair(data, pos, list, k);
        docBuf[i] := delta;
        tfBuf[i] := tf;
        assert lo + (i + 1) == k + 1;
      }
      bufLen := remaining;
    }

    /** Advance by one posting. */
    method Next() returns (ok: bool)
      requires Valid() && CacheOk()
      modifies this, docBuf, tfBuf, CacheSet()
      ensures Valid() && CacheOk() && shallowIdx == old(shallowIdx)
      ensures ok == (old(read) < df)
      ensures read == if ok then old(read) + 1 else old(read)
    {
      hide Describes, EncodeList, ValidList, Offset, Blocks;
      ok := Advance();
    }

    /**
     Next without the claim about the current posting, which does not hold
     between SkipTo's jump and the load that follows it.
     */
    method Advance() returns (ok: bool)
      requires Fixed() && Cursor() && CacheOk()
      modifies this, docBuf, tfBuf, CacheSet()
      ensures CacheOk() && shallowIdx == old(shallowIdx)
      ensures ok == (old(read) < df)
      ensures ok ==> Valid() && read == old(read) + 1
      ensures !ok ==> Cursor() && read == old(read) && blockIdx == old(blockIdx)
                      && currDoc == old(currDoc) && currTF == old(currTF)
    {
      hide Describes, EncodeList, ValidList, Offset, Blocks;
      if bufPos >= bufLen {
        if read >= df {
          return false;
        }
        blockIdx := blockIdx + 1;
        LoadBlock();
        if bufLen == 0 {
          return false;
        }
      }
      TakePosting();
      return true;
    }

    /** Take the next buffered posting and make it the current one. */
    method TakePosting()
      requires Fixed() && Loaded() && bufPos < bufLen && base == Base(list, read)
      requires skip.Some? ==> shallowIdx <= FullBlocks(list)
      modifies this
      ensures Valid() && read == old(read) + 1 && shallowIdx == old(shallowIdx)
    {
      hide Describes, EncodeList, ValidList, Offset, Blocks;
      assert docBuf[bufPos] == Delta(list, read) && tfBuf[bufPos] == list[read].tf;
      var delta := docBuf[bufPos];
      currDoc := base + delta;
      base := currDoc;
      currTF := tfBuf[bufPos];
      bufPos := bufPos + 1;
      read := read + 1;
    }

    /**
     Go to the first posting with docID >= target: the current one if it
     already reaches target, else the first later one that does.
     */
    method SkipTo(target: nat) returns (ok: bool)
      requires Valid() && CacheOk()
      modifies this, docBuf, tfBuf, CacheSet()
      ensures Valid() && CacheOk() && shallowIdx == old(shallowIdx)
      ensures old(read) > 0 && old(currDoc) >= target ==> ok && read == old(read)
      ensures old(read) == 0 || old(currDoc) < target ==>
                var k := FirstReaching(list, old(read), target);
                ok == (k < df) && read == if ok then k + 1 else df
    {
      hide Describes, EncodeList, ValidList, Offset, Blocks, PostingIter.Loaded, PostingIter.Empty, PostingIter.Cursor;
      if currDoc >= target && read > 0 {
        return true;
      }
      ghost var start := read;
      Behind(target);
      if skip.Some? && read < df {
        Jump(target);
      }
      ok := Scan(target, start);
    }

    /** Everything taken lies before target when the current posting does. */
    lemma Behind(target: nat)
      requires Valid() && (read == 0 || currDoc < target)
      ensures forall i :: 0 <= i < read ==> list[i].doc < target
    {
      hide EncodeList, Offset, Blocks, Loaded, Empty, Describes;
    }

    /** The coarse jump: to the block that holds target, when that block lies ahead. */
    method Jump(target: nat)
      requires Valid() && skip.Some? && read < df
      requires forall i :: 0 <= i < read ==> list[i].doc < target
      modifies this
      ensures Fixed() && Cursor() && shallowIdx == old(shallowIdx) && old(read) <= read < df
      ensures forall i :: 0 <= i < read ==> list[i].doc < target
      ensures read == old(read) ==> Valid()
    {
      hide *;
      JumpTarget(target);
      var offset, base', blkIdx := Skips.SkipTo(skip.value, target);
      if offset > pos {
        JumpAhead(offset, base', blkIdx, target);
      }
    }

    /** What the skip list knows of the first block that reaches target. */
    lemma JumpTarget(target: nat)
      requires Valid() && skip.Some?
      ensures Fixed() && Cursor() && ValidList(list) && df == |list|
      ensures var sl := skip.value;
              WellBuilt(sl) && |sl.l0DocIDs| == |sl.l0Offsets| == |sl.l0Bases| == FullBlocks(list)
              && var b := FirstFrom(sl.l0DocIDs, 0, target);
              b < FullBlocks(list) ==>
                sl.l0Offsets[b] == Offset(list, b) && sl.l0Bases[b] == Base(list, 128 * b)
                && forall i :: 0 <= i < 128 * b ==> list[i].doc < target
    {
      hide EncodeList, ValidList, Offset, Blocks, FirstFrom, Loaded, Empty, Base;
      FirstBlock(skip.value, list, target);
    }

    method JumpAhead(offset: nat, base': nat, blkIdx: nat, ghost target: nat)
      requires Valid() && offset > pos && blkIdx < FullBlocks(list)
      requires offset == Offset(list, blkIdx) && base' == Base(list, 128 * blkIdx)
      requires forall i :: 0 <= i < 128 * blkIdx ==> list[i].doc < target
      modifies this
      ensures Fixed() && Cursor() && shallowIdx == old(shallowIdx) && old(read) <= read < df
      ensures read == 128 * blkIdx > old(read)
    {
      hide Describes, EncodeList, ValidList, Offset, Blocks;
      assert blkIdx > blockIdx + 1 by {
        if blkIdx <= blockIdx + 1 {
          OffsetMono(list, blkIdx, if blockIdx < FullBlocks(list) then blockIdx + 1 else blkIdx);
        }
      }
      pos := offset;
      base := base';
      blockIdx := blkIdx - 1;
      read := blkIdx * BLOCK_SIZE;
      bufPos := 0;
      bufLen := 0;
    }

    /** The linear scan from wherever the jump left the cursor. */
    method Scan(target: nat, ghost start: nat) returns (ok: bool)
      requires Fixed() && Cursor() && CacheOk() && start <= read
      requires forall i :: 0 <= i < read ==> list[i].doc < target
      requires read == df ==> Valid()
      modifies this, docBuf, tfBuf, CacheSet()
      ensures Valid() && CacheOk() && shallowIdx == old(shallowIdx)
      ensures var k := FirstReaching(list, start, target);
              ok == (k < df) && read == if ok then k + 1 else df
    {
      hide Describes, EncodeList, ValidList, Offset, Blocks;
      while true
        invariant Fixed() && Cursor() && CacheOk() && start <= read && shallowIdx == old(shallowIdx)
        invariant forall i :: 0 <= i < read ==> list[i].doc < target
        invariant read == df ==> Valid()
        decreases df - read
      {
        if read >= df {
          return false;
        }
        var more := Advance();
        if !more {
          return false;
        }
        if currDoc >= target {
          return true;
        }
      }
    }

    lemma SkipShape()
      requires Valid() && skip.Some?
      ensures var sl := skip.value;
              WellBuilt(sl) && |sl.l0DocIDs| == |sl.l0Impact| == FullBlocks(list) && Increasing(sl.l0DocIDs)
      ensures blockIdx <= FullBlocks(list) && shallowIdx <= FullBlocks(list)
    {
      hide EncodeList, ValidList, Offset, Blocks, Base, Delta, Increasing;
    }

    /**
     The impact and last document of the first full block, at or after both the
     current block and the forward cursor, that reaches target; nothing is decoded.
     */
    method ShallowBlock(target: nat) returns (impact: real, lastDoc: nat, ok: bool)
      requires Valid()
      modifies this`shallowIdx
      ensures Valid()
      ensures skip.None? ==> !ok && shallowIdx == old(shallowIdx)
      ensures skip.Some? ==>
                var from := if blockIdx > old(shallowIdx) then blockIdx else old(shallowIdx);
                from <= FullBlocks(list)
                && shallowIdx == FirstFrom(skip.value.l0DocIDs, from, target)
                && ok == (shallowIdx < FullBlocks(list))
                && (ok ==> impact == skip.value.l0Impact[shallowIdx] && lastDoc == skip.value.l0DocIDs[shallowIdx])
      ensures !ok ==> impact == 0.0
    {
      hide EncodeList, ValidList, Offset, Blocks, Base, Delta, Increasing, Describes, WellBuilt;
      if skip.None? {
        return 0.0, 0, false;
      }
      SkipShape();
      var docs := skip.value.l0DocIDs;
      var idx := shallowIdx;
      if blockIdx > idx {
        idx := blockIdx;
      }
      idx := ForwardTo(skip.value, idx, target);
      SetShallow(idx);
      if idx >= |docs| {
        return 0.0, 0, false;
      }
      return BlockMaxImpact(skip, idx), docs[idx], true;
    }

    method SetShallow(idx: nat)
      requires Valid() && (skip.Some? ==> idx <= FullBlocks(list))
      modifies this`shallowIdx
      ensures Valid() && shallowIdx == idx
    {
      hide EncodeList, ValidList, Offset, Blocks, Base, Delta, Describes;
      shallowIdx := idx;
    }
  }

  /** The forward walk: eight steps one by one, then a search of the whole list. */
  method ForwardTo(sl: SkipList, from: nat, target: nat) returns (idx: nat)
    requires WellBuilt(sl) && Increasing(sl.l0DocIDs) && from <= |sl.l0DocIDs|
    ensures idx == FirstFrom(sl.l0DocIDs, from, target)
  {
    hide WellBuilt, Increasing;
    var docs := sl.l0DocIDs;
    idx := from;
    var steps := 0;
    while idx < |docs| && docs[idx] < target
      invariant from <= idx <= |docs| && FirstFrom(docs, from, target) == FirstFrom(docs, idx, target)
      decreases |docs| - idx
    {
      if steps == 8 {
        var b, found := BlockFor(Some(sl), target);
        FirstFromIsFirst(docs, idx, target);
        return if found then b else |docs|;
      }
      idx := idx + 1;
      steps := steps + 1;
    }
  }

  /** Entries at or below one that falls short of target all do, so the search may start anywhere below. */
  lemma FirstFromIsFirst(docs: seq<nat>, from: nat, target: nat)
    requires Increasing(docs) && from < |docs| && docs[from] < target
    ensures FirstFrom(docs, from, target) == FirstFrom(docs, 0, target)
  {
  }

  method CopyInto(dst: array<nat>, src: seq<nat>)
    requires dst.Length == |src|
    modifies dst
    ensures dst[..] == src
  {
    for i := 0 to |src|
      invariant forall j :: 0 <= j < i ==> dst[j] == src[j]
    {
      dst[i] := src[i];
    }
  }
}
