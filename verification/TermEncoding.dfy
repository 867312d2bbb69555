/** Encoding one term's postings with its skip data and bounds (internal/index/builder.go). */
module TermEncoding {
  import opened Options
  import opened Bits
  import opened RadixSort
  import opened BlockPack
  import opened PostingFormat
  import opened Skips = SkipList
  import opened BuiltIndex
  import opened TermSlices
  import Varint

  /** What scoring a posting needs of the build. */
  datatype Corpus = Corpus(k: BuildScoring, docLens: seq<nat>, avgDocLen: real, docCount: nat)

  ghost predicate CorpusOf(c: Corpus, docs: seq<Doc>) {
    && |c.docLens| == |docs| == c.docCount && c.avgDocLen == AvgLen(docs)
    && forall i :: 0 <= i < |docs| ==> c.docLens[i] == docs[i].len
  }

  /** slice is the list ps of the corpus's documents. */
  ghost predicate Input(slice: seq<RawPosting>, c: Corpus, ps: seq<Posting>, docs: seq<Doc>) {
    SliceHolds(slice, ps) && ValidList(ps) && CorpusOf(c, docs) && InDocs(ps, docs)
  }

  /** The skip entries of the first n blocks. */
  datatype Entries = Entries(docIDs: seq<nat>, offsets: seq<nat>, bases: seq<nat>, impacts: seq<real>)

  ghost predicate EntriesOf(l0: Entries, ps: seq<Posting>, k: BuildScoring, docs: seq<Doc>, n: nat)
    requires ValidList(ps) && InDocs(ps, docs)
  {
    && 128 * n <= |ps| && |l0.docIDs| == |l0.offsets| == |l0.bases| == |l0.impacts| == n
    && forall b {:trigger l0.docIDs[b]} {:trigger l0.offsets[b]} {:trigger l0.bases[b]} {:trigger l0.impacts[b]} :: 0 <= b < n ==>
         EntryOf(l0, ps, k, docs, b)
  }

  ghost predicate EntryOf(l0: Entries, ps: seq<Posting>, k: BuildScoring, docs: seq<Doc>, b: nat)
    requires ValidList(ps) && InDocs(ps, docs) && 128 * b + 128 <= |ps|
    requires b < |l0.docIDs| && b < |l0.offsets| && b < |l0.bases| && b < |l0.impacts|
  {
    && l0.docIDs[b] == ps[128 * b + 127].doc && l0.offsets[b] == Offset(ps, b) && l0.bases[b] == Base(ps, 128 * b)
    && l0.impacts[b] == k.round32(MaxImpact(k, docs, ps, 128 * b, 128 * b + 128))
  }

  /** Score posting j and raise the running maximum from lo to j. */
  method Raise(slice: seq<RawPosting>, c: Corpus, j: nat, max0: real, ghost ps: seq<Posting>, ghost docs: seq<Doc>, ghost lo: nat)
    returns (max: real)
    requires Input(slice, c, ps, docs) && lo <= j < |slice|
    requires max0 == MaxImpact(c.k, docs, ps, lo, j)
    ensures max == MaxImpact(c.k, docs, ps, lo, j + 1)
  {
    hide ValidList, AvgLen;
    var p := slice[j];
    var score := c.k.scoreTerm(p.tf, |slice|, c.docLens[p.docID], c.avgDocLen, c.docCount);
    assert score == BuildScore(c.k, docs, ps, j);
    hide BuildScore;
    max := if score > max0 then score else max0;
  }

  /** Deltas, frequencies and maxima of one full block. */
  method GatherBlock(slice: seq<RawPosting>, c: Corpus, b: nat, prev: nat, maxUB0: real, ghost ps: seq<Posting>, ghost docs: seq<Doc>)
    returns (docDeltas: seq<u32>, tfVals: seq<u32>, last: nat, blockMaxImpact: real, maxUB: real)
    requires Input(slice, c, ps, docs) && 128 * b + 128 <= |slice| && prev == Base(ps, 128 * b)
    requires maxUB0 == MaxImpact(c.k, docs, ps, 0, 128 * b)
    ensures docDeltas == Deltas(ps, b) && tfVals == Tfs(ps, b) && last == ps[128 * b + 127].doc
    ensures blockMaxImpact == MaxImpact(c.k, docs, ps, 128 * b, 128 * b + 128)
    ensures maxUB == MaxImpact(c.k, docs, ps, 0, 128 * b + 128)
  {
    hide AvgLen, MaxImpact, CorpusOf, InDocs;
    docDeltas, tfVals, last, maxUB := [], [], prev, maxUB0;
    var blockStart := b * BLOCK_SIZE;
    blockMaxImpact := NothingScored(c.k, ps, docs, blockStart);
    for j := 0 to BLOCK_SIZE
      invariant |docDeltas| == |tfVals| == j && last == Base(ps, blockStart + j)
      invariant forall i :: 0 <= i < j ==> docDeltas[i] == Delta(ps, blockStart + i) && tfVals[i] == ps[blockStart + i].tf
      invariant blockMaxImpact == MaxImpact(c.k, docs, ps, blockStart, blockStart + j)
      invariant maxUB == MaxImpact(c.k, docs, ps, 0, blockStart + j)
    {
      var p := slice[blockStart + j];
      assert p.docID == ps[blockStart + j].doc == Base(ps, blockStart + j) + Delta(ps, blockStart + j);
      docDeltas := docDeltas + [p.docID - last];
      tfVals := tfVals + [p.tf];
      last := p.docID;
      blockMaxImpact := Raise(slice, c, blockStart + j, blockMaxImpact, ps, docs, blockStart);
      maxUB := Raise(slice, c, blockStart + j, maxUB, ps, docs, 0);
    }
    assert docDeltas == Deltas(ps, b);
    assert tfVals == Tfs(ps, b);
  }

  /** A maximum starts at 0. */
  method NothingScored(ghost k: BuildScoring, ghost ps: seq<Posting>, ghost docs: seq<Doc>, ghost lo: nat) returns (max: real)
    requires InDocs(ps, docs) && lo <= |ps|
    ensures max == 0.0 == MaxImpact(k, docs, ps, lo, lo)
  {
    max := 0.0;
  }

  /** Pack a block behind data. */
  method AppendBlock(data0: seq<byte>, vals: seq<u32>, packBuf: array<byte>) returns (data: seq<byte>)
    requires |vals| == BLOCK_SIZE && packBuf.Length >= PACK_BUF_SIZE
    modifies packBuf
    ensures data == data0 + Block(vals)
  {
    hide Block;
    var n := PackFOR32(vals, packBuf);
    data := data0 + packBuf[..n];
  }

  lemma BlocksStep(ps: seq<Posting>, b: nat)
    requires ValidList(ps) && 128 * b + 128 <= |ps|
    ensures Blocks(ps, b + 1) == Blocks(ps, b) + Block(Deltas(ps, b)) + Block(Tfs(ps, b))
  {
    hide Block, Deltas, Tfs, ValidList;
  }

  lemma MoreEntries(l0: Entries, l0': Entries, ps: seq<Posting>, k: BuildScoring, docs: seq<Doc>, n: nat)
    requires ValidList(ps) && InDocs(ps, docs) && EntriesOf(l0, ps, k, docs, n) && 128 * n + 128 <= |ps|
    requires |l0'.docIDs| == |l0'.offsets| == |l0'.bases| == |l0'.impacts| == n + 1
    requires l0'.docIDs[..n] == l0.docIDs && l0'.offsets[..n] == l0.offsets && l0'.bases[..n] == l0.bases && l0'.impacts[..n] == l0.impacts
    requires EntryOf(l0', ps, k, docs, n)
    ensures EntriesOf(l0', ps, k, docs, n + 1)
  {
    hide ValidList, InDocs, MaxImpact, Offset, Base;
    forall b | 0 <= b < n + 1 ensures EntryOf(l0', ps, k, docs, b) {
      if b < n {
        assert EntryOf(l0, ps, k, docs, b);
        assert l0'.docIDs[b] == l0'.docIDs[..n][b] && l0'.offsets[b] == l0'.offsets[..n][b];
        assert l0'.bases[b] == l0'.bases[..n][b] && l0'.impacts[b] == l0'.impacts[..n][b];
      }
    }
  }

  /** One full block: its bytes and its skip entry. */
  method EncodeBlock(slice: seq<RawPosting>, c: Corpus, b: nat, data0: seq<byte>, blockBase: nat, prev: nat, maxUB0: real,
                     l0: Entries, packBuf: array<byte>, ghost ps: seq<Posting>, ghost docs: seq<Doc>)
    returns (data: seq<byte>, last: nat, maxUB: real, l0': Entries)
    requires Input(slice, c, ps, docs) && 128 * b + 128 <= |slice| && prev == Base(ps, 128 * b)
    requires maxUB0 == MaxImpact(c.k, docs, ps, 0, 128 * b) && EntriesOf(l0, ps, c.k, docs, b)
    requires |data0| == blockBase + |Blocks(ps, b)| && data0[blockBase..] == Blocks(ps, b)
    requires packBuf.Length >= PACK_BUF_SIZE
    modifies packBuf
    ensures last == Base(ps, 128 * b + 128) && maxUB == MaxImpact(c.k, docs, ps, 0, 128 * b + 128)
    ensures data == data0 + Block(Deltas(ps, b)) + Block(Tfs(ps, b)) && EntriesOf(l0', ps, c.k, docs, b + 1)
  {
    hide Blocks, Block, Deltas, Tfs, ValidList, MaxImpact, CorpusOf, BuildScore, EntriesOf;
    var docDeltas, tfVals, impact;
    docDeltas, tfVals, last, impact, maxUB := GatherBlock(slice, c, b, prev, maxUB0, ps, docs);
    data := AppendBlock(data0, docDeltas, packBuf);
    data := AppendBlock(data, tfVals, packBuf);
    l0' := AddEntry(l0, last, |data0| - blockBase, c.k.round32(impact), b, c.k, ps, docs);
  }

  method AddEntry(l0: Entries, last: nat, offset: nat, impact: real, b: nat, ghost k: BuildScoring, ghost ps: seq<Posting>, ghost docs: seq<Doc>)
    returns (l0': Entries)
    requires ValidList(ps) && InDocs(ps, docs) && EntriesOf(l0, ps, k, docs, b) && 128 * b + 128 <= |ps|
    requires last == ps[128 * b + 127].doc && offset == Offset(ps, b)
    requires impact == k.round32(MaxImpact(k, docs, ps, 128 * b, 128 * b + 128))
    ensures EntriesOf(l0', ps, k, docs, b + 1)
  {
    hide Blocks, ValidList, MaxImpact, Offset;
    var base := if b == 0 then 0 else l0.docIDs[b - 1];
    l0' := Entries(l0.docIDs + [last], l0.offsets + [offset], l0.bases + [base], l0.impacts + [impact]);
    MoreEntries(l0, l0', ps, k, docs, b);
  }

  /** The partial tail: LEB128 pairs. */
  method EncodeTail(slice: seq<RawPosting>, c: Corpus, data0: seq<byte>, prev0: nat, maxUB0: real, ghost ps: seq<Posting>, ghost docs: seq<Doc>)
    returns (data: seq<byte>, maxUB: real)
    requires Input(slice, c, ps, docs)
    requires var lo := 128 * FullBlocks(ps); prev0 == Base(ps, lo) && maxUB0 == MaxImpact(c.k, docs, ps, 0, lo)
    ensures data == data0 + Pairs(ps, 128 * FullBlocks(ps), |ps|) && maxUB == MaxImpact(c.k, docs, ps, 0, |ps|)
  {
    hide CorpusOf, MaxImpact, BuildScore, Varint.Encode;
    data, maxUB := data0, maxUB0;
    var prev := prev0;
    ghost var lo := 128 * FullBlocks(ps);
    var nBlocks := |slice| / BLOCK_SIZE;
    var tailStart := nBlocks * BLOCK_SIZE;
    for j := tailStart to |slice|
      invariant lo == tailStart && data == data0 + Pairs(ps, lo, j) && prev == Base(ps, j)
      invariant maxUB == MaxImpact(c.k, docs, ps, 0, j)
    {
      var p := slice[j];
      assert p.docID - prev == Delta(ps, j) && p.tf == ps[j].tf;
      data := Varint.AppendVarint(data, p.docID - prev);
      data := Varint.AppendVarint(data, p.tf);
      assert data == data0 + (Pairs(ps, lo, j) + Pair(ps, j));
      prev := p.docID;
      maxUB := Raise(slice, c, j, maxUB, ps, docs, 0);
    }
  }

  lemma EncodedSplit(ps: seq<Posting>, data0: seq<byte>)
    requires ValidList(ps)
    ensures data0 + Blocks(ps, FullBlocks(ps)) + Pairs(ps, 128 * FullBlocks(ps), |ps|) == data0 + EncodeList(ps)
    ensures Blocks(ps, 0) == [] && Base(ps, 0) == 0
    ensures |ps| == 128 * FullBlocks(ps) ==> Pairs(ps, |ps|, |ps|) == []
  {
    hide ValidList;
  }

  /** The skip list built from the entries of all full blocks. */
  method MakeSkip(l0: Entries, ghost ps: seq<Posting>, ghost k: BuildScoring, ghost docs: seq<Doc>) returns (skip: Option<SkipList>)
    requires ValidList(ps) && InDocs(ps, docs) && EntriesOf(l0, ps, k, docs, FullBlocks(ps))
    ensures TermBounds(MaxImpact(k, docs, ps, 0, |ps|), skip, k, docs, ps)
  {
    hide MaxImpact, Offset;
    if |l0.docIDs| > 0 {
      assert forall b :: 0 <= b < FullBlocks(ps) ==> EntryOf(l0, ps, k, docs, b);
      var sl := BuildSkipList(l0.docIDs, l0.offsets, l0.bases, l0.impacts);
      skip := Some(sl);
    } else {
      skip := None;
    }
  }

  /** All of one term: bytes behind data0, document frequency, skip list and bound. */
  method EncodeTerm(slice: seq<RawPosting>, c: Corpus, data0: seq<byte>, packBuf: array<byte>, ghost ps: seq<Posting>, ghost docs: seq<Doc>)
    returns (data: seq<byte>, df: nat, skip: Option<SkipList>, maxUB: real)
    requires Input(slice, c, ps, docs) && packBuf.Length >= PACK_BUF_SIZE
    modifies packBuf
    ensures data == data0 + EncodeList(ps) && df == |ps| && TermBounds(maxUB, skip, c.k, docs, ps)
  {
    hide ValidList, MaxImpact, CorpusOf, EntriesOf, InDocs, Blocks, Pairs, EncodeList, TermBounds;
    df := |slice|;
    EncodedSplit(ps, data0);
    var l0, prev;
    data, prev, maxUB, l0 := EncodeBlocks(slice, c, data0, packBuf, ps, docs);
    var tail := df % BLOCK_SIZE;
    skip := MakeSkip(l0, ps, c.k, docs);
    if tail > 0 {
      data, maxUB := EncodeTail(slice, c, data, prev, maxUB, ps, docs);
    } else {
      assert 128 * FullBlocks(ps) == |ps|;
    }
  }

  lemma InputLength(slice: seq<RawPosting>, c: Corpus, ps: seq<Posting>, docs: seq<Doc>)
    requires Input(slice, c, ps, docs)
    ensures |slice| == |ps|
  {
  }

  lemma NoEntries(ps: seq<Posting>, k: BuildScoring, docs: seq<Doc>)
    requires ValidList(ps) && InDocs(ps, docs)
    ensures EntriesOf(Entries([], [], [], []), ps, k, docs, 0)
  {
  }

  method EncodeBlocks(slice: seq<RawPosting>, c: Corpus, data0: seq<byte>, packBuf: array<byte>, ghost ps: seq<Posting>, ghost docs: seq<Doc>)
    returns (data: seq<byte>, prev: nat, maxUB: real, l0: Entries)
    requires Input(slice, c, ps, docs) && packBuf.Length >= PACK_BUF_SIZE
    modifies packBuf
    ensures data == data0 + Blocks(ps, FullBlocks(ps)) && prev == Base(ps, 128 * FullBlocks(ps))
    ensures maxUB == MaxImpact(c.k, docs, ps, 0, 128 * FullBlocks(ps)) && EntriesOf(l0, ps, c.k, docs, FullBlocks(ps))
  {
    hide ValidList, MaxImpact, CorpusOf, InDocs, Blocks, Block, Deltas, Tfs, EntriesOf, EncodeList, SliceHolds, Pairs;
    EncodedSplit(ps, data0);
    NoEntries(ps, c.k, docs);
    InputLength(slice, c, ps, docs);
    data, prev, l0 := data0, 0, Entries([], [], [], []);
    maxUB := NothingScored(c.k, ps, docs, 0);
    var nBlocks, blockBase := |slice| / BLOCK_SIZE, |data0|;
    for blk := 0 to nBlocks
      invariant data == data0 + Blocks(ps, blk) && prev == Base(ps, 128 * blk)
      invariant maxUB == MaxImpact(c.k, docs, ps, 0, 128 * blk) && EntriesOf(l0, ps, c.k, docs, blk)
    {
      BlocksStep(ps, blk);
      assert data[blockBase..] == Blocks(ps, blk);
      data, prev, maxUB, l0 := EncodeBlock(slice, c, blk, data, blockBase, prev, maxUB, l0, packBuf, ps, docs);
    }
  }
}
