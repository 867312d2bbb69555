/**
 The byte format of a posting list: one FOR block of document deltas and one of
 term frequencies per 128 postings, then LEB128 pairs for the rest.
 */
module PostingFormat {
  import opened Bits
  import opened BlockPack
  import Varint

  datatype Posting = Posting(doc: nat, tf: nat)

  /** Documents strictly increase and every number fits 32 bits. */
  ghost predicate ValidList(ps: seq<Posting>) {
    && (forall i, j :: 0 <= i < j < |ps| ==> ps[i].doc < ps[j].doc)
    && (forall i :: 0 <= i < |ps| ==> ps[i].doc < 0x1_0000_0000 && ps[i].tf < 0x1_0000_0000)
  }

  /** The document before posting i, 0 at the start. */
  function Base(ps: seq<Posting>, i: nat): nat
    requires i <= |ps|
  {
    if i == 0 then 0 else ps[i - 1].doc
  }

  function Delta(ps: seq<Posting>, i: nat): (d: nat)
    requires ValidList(ps) && i < |ps|
    ensures Base(ps, i) + d == ps[i].doc && d < 0x1_0000_0000
  {
    ps[i].doc - Base(ps, i)
  }

  function Deltas(ps: seq<Posting>, b: nat): (d: seq<nat>)
    requires ValidList(ps) && 128 * b + 128 <= |ps|
    ensures |d| == BLOCK_SIZE && forall j :: 0 <= j < |d| ==> d[j] < 0x1_0000_0000
  {
    var d := seq<nat>(BLOCK_SIZE, j requires 0 <= j < BLOCK_SIZE => Delta(ps, 128 * b + j));
    assert forall j :: 0 <= j < BLOCK_SIZE ==> d[j] == Delta(ps, 128 * b + j);
    d
  }

  function Tfs(ps: seq<Posting>, b: nat): (t: seq<nat>)
    requires ValidList(ps) && 128 * b + 128 <= |ps|
    ensures |t| == BLOCK_SIZE && forall j :: 0 <= j < |t| ==> t[j] < 0x1_0000_0000
  {
    seq<nat>(BLOCK_SIZE, j requires 0 <= j < BLOCK_SIZE => ps[128 * b + j].tf)
  }

  /** The bytes of the first n full blocks. */
  function Blocks(ps: seq<Posting>, n: nat): seq<byte>
    requires ValidList(ps) && 128 * n <= |ps|
  {
    if n == 0 then [] else Blocks(ps, n - 1) + (Block(Deltas(ps, n - 1)) + Block(Tfs(ps, n - 1)))
  }

  function Pair(ps: seq<Posting>, i: nat): seq<byte>
    requires ValidList(ps) && i < |ps|
  {
    Varint.Encode(Delta(ps, i)) + Varint.Encode(ps[i].tf)
  }

  /** The LEB128 pairs of postings lo, ..., hi - 1. */
  function Pairs(ps: seq<Posting>, lo: nat, hi: nat): seq<byte>
    requires ValidList(ps) && lo <= hi <= |ps|
  {
    if lo == hi then [] else Pairs(ps, lo, hi - 1) + Pair(ps, hi - 1)
  }

  function FullBlocks(ps: seq<Posting>): (n: nat)
    ensures 128 * n <= |ps| < 128 * n + 128
  {
    |ps| / 128
  }

  function EncodeList(ps: seq<Posting>): seq<byte>
    requires ValidList(ps)
  {
    Blocks(ps, FullBlocks(ps)) + Pairs(ps, 128 * FullBlocks(ps), |ps|)
  }

  /** Where block b starts; b = FullBlocks is where the tail starts. */
  function Offset(ps: seq<Posting>, b: nat): nat
    requires ValidList(ps) && b <= FullBlocks(ps)
  {
    |Blocks(ps, b)|
  }

  /** Where posting i of the tail starts. */
  function TailOffset(ps: seq<Posting>, i: nat): nat
    requires ValidList(ps) && 128 * FullBlocks(ps) <= i <= |ps|
  {
    |Blocks(ps, FullBlocks(ps))| + |Pairs(ps, 128 * FullBlocks(ps), i)|
  }

  lemma {:induction false} BlocksPrefix(ps: seq<Posting>, m: nat, n: nat)
    requires ValidList(ps) && m <= n && 128 * n <= |ps|
    ensures Blocks(ps, m) <= Blocks(ps, n)
    ensures m < n ==> |Blocks(ps, m)| < |Blocks(ps, n)|
  {
    hide Block, BitLen, MaxOf, Deltas, Tfs, ValidList;
    if m < n { BlocksPrefix(ps, m, n - 1); }
  }

  lemma OffsetMono(ps: seq<Posting>, a: nat, b: nat)
    requires ValidList(ps) && a <= b <= FullBlocks(ps)
    ensures Offset(ps, a) <= Offset(ps, b) <= |EncodeList(ps)|
  {
    hide ValidList, Blocks, Pairs;
    BlocksPrefix(ps, a, b);
    BlocksPrefix(ps, b, FullBlocks(ps));
  }

  lemma TailEnds(ps: seq<Posting>)
    requires ValidList(ps)
    ensures TailOffset(ps, 128 * FullBlocks(ps)) == Offset(ps, FullBlocks(ps))
    ensures TailOffset(ps, |ps|) == |EncodeList(ps)|
  {
    hide ValidList, Blocks;
  }

  lemma {:induction false} PairsSplit(ps: seq<Posting>, lo: nat, mid: nat, hi: nat)
    requires ValidList(ps) && lo <= mid <= hi <= |ps|
    ensures Pairs(ps, lo, hi) == Pairs(ps, lo, mid) + Pairs(ps, mid, hi)
  {
    hide Pair, ValidList;
    if mid < hi {
      PairsSplit(ps, lo, mid, hi - 1);
    }
  }

  /** A block of vals lies at position at of data and ends at position end. */
  ghost predicate HoldsBlock(data: seq<byte>, at: nat, vals: seq<nat>, end: nat) {
    at <= end <= |data| && WellFormed(data[at..]) && Unpacked(data[at..]) == vals
    && at + 1 + 16 * (data[at..][0] as int) == end
  }

  /** Where the frequencies of block b start. */
  ghost function TfOffset(ps: seq<Posting>, b: nat): nat
    requires ValidList(ps) && b < FullBlocks(ps)
  {
    Offset(ps, b) + |Block(Deltas(ps, b))|
  }

  lemma SliceAfter(data: seq<byte>, pre: seq<byte>, d: seq<byte>, t: seq<byte>, n: nat)
    requires n <= |data| && data[..n] == pre + (d + t)
    ensures |pre| + |d| + |t| == n
    ensures data[|pre|..] == d + (t + data[n..]) && data[|pre| + |d|..] == t + data[n..]
  {
    assert data == data[..n] + data[n..];
  }

  /** The bytes from the start of block b on, and from its frequencies on. */
  lemma BlockSlices(ps: seq<Posting>, b: nat)
    requires ValidList(ps) && b < FullBlocks(ps)
    ensures var data, end := EncodeList(ps), Offset(ps, b + 1);
            var d, t := Block(Deltas(ps, b)), Block(Tfs(ps, b));
            && Offset(ps, b) + |d| + |t| == end <= |data|
            && data[Offset(ps, b)..] == d + (t + data[end..])
            && data[Offset(ps, b) + |d|..] == t + data[end..]
  {
    hide Block, Deltas, Tfs, ValidList, Pairs;
    BlocksPrefix(ps, b + 1, FullBlocks(ps));
    var end := Offset(ps, b + 1);
    SliceAfter(EncodeList(ps), Blocks(ps, b), Block(Deltas(ps, b)), Block(Tfs(ps, b)), end);
  }

  /** The two blocks stored at Offset(b) decode to the deltas and frequencies of block b. */
  lemma BlockAt(ps: seq<Posting>, b: nat)
    requires ValidList(ps) && b < FullBlocks(ps)
    ensures HoldsBlock(EncodeList(ps), Offset(ps, b), Deltas(ps, b), TfOffset(ps, b))
    ensures HoldsBlock(EncodeList(ps), TfOffset(ps, b), Tfs(ps, b), Offset(ps, b + 1))
  {
    hide Block, BitLen, MaxOf, Deltas, Tfs, ValidList, Unpacked, Pairs, WellFormed, EncodeList, Offset, Blocks;
    BlockSlices(ps, b);
    var rest := EncodeList(ps)[Offset(ps, b + 1)..];
    BlockRoundTrip(Deltas(ps, b), Block(Tfs(ps, b)) + rest);
    BlockRoundTrip(Tfs(ps, b), rest);
  }

  /** The pair stored at TailOffset(i) reads back as posting i's delta and frequency. */
  lemma PairAt(ps: seq<Posting>, i: nat)
    requires ValidList(ps) && 128 * FullBlocks(ps) <= i < |ps|
    ensures var data, at := EncodeList(ps), TailOffset(ps, i);
            Varint.Terminated(data, at) && Varint.Value(data, at) == Delta(ps, i)
            && var at' := at + Varint.Length(data, at);
            Varint.Terminated(data, at') && Varint.Value(data, at') == ps[i].tf
            && at' + Varint.Length(data, at') == TailOffset(ps, i + 1)
  {
    hide Blocks, Pairs, ValidList, EncodeList, TailOffset, Varint.Encode, Varint.Value, Varint.Length, Varint.Terminated;
    var pre := Blocks(ps, FullBlocks(ps)) + Pairs(ps, 128 * FullBlocks(ps), i);
    var d, t, post := Varint.Encode(Delta(ps, i)), Varint.Encode(ps[i].tf), Pairs(ps, i + 1, |ps|);
    PairLies(ps, i);
    Regroup(pre, d, t, post);
    Varint.RoundTrip(pre, Delta(ps, i), t + post);
    Varint.RoundTrip(pre + d, ps[i].tf, post);
  }

  /** What lies before posting i of the tail, its pair, and what follows. */
  lemma PairLies(ps: seq<Posting>, i: nat)
    requires ValidList(ps) && 128 * FullBlocks(ps) <= i < |ps|
    ensures var pre := Blocks(ps, FullBlocks(ps)) + Pairs(ps, 128 * FullBlocks(ps), i);
            var d, t := Varint.Encode(Delta(ps, i)), Varint.Encode(ps[i].tf);
            && EncodeList(ps) == pre + (d + t) + Pairs(ps, i + 1, |ps|)
            && TailOffset(ps, i) == |pre| && TailOffset(ps, i + 1) == |pre| + |d| + |t|
  {
    hide Blocks, ValidList, Varint.Encode;
    PairsSplit(ps, 128 * FullBlocks(ps), i + 1, |ps|);
  }

  lemma Regroup(a: seq<byte>, b: seq<byte>, c: seq<byte>, d: seq<byte>)
    ensures a + (b + c) + d == a + b + (c + d) == (a + b) + c + d
  {
  }

  // ----- the decoder of the merge path (internal/segment/merge.go)

  /** The first |docs| postings, as the parallel slices the code builds. */
  ghost predicate Decoded(docs: seq<nat>, tfs: seq<nat>, ps: seq<Posting>) {
    |docs| == |tfs| <= |ps| && forall i :: 0 <= i < |docs| ==> docs[i] == ps[i].doc && tfs[i] == ps[i].tf
  }

  /** decodePostings: all documents and frequencies of a list of df postings. */
  method DecodePostings(data: seq<byte>, df: nat, docBuf: array<nat>, tfBuf: array<nat>, ghost ps: seq<Posting>)
    returns (docIDs: seq<nat>, tfs: seq<nat>)
    requires ValidList(ps) && data == EncodeList(ps) && df == |ps|
    requires docBuf != tfBuf && docBuf.Length == tfBuf.Length == BLOCK_SIZE
    modifies docBuf, tfBuf
    ensures |docIDs| == |ps| && Decoded(docIDs, tfs, ps)
  {
    assert Offset(ps, 0) == 0 && Decoded([], [], ps) && Base(ps, 0) == 0;
    hide *;
    docIDs, tfs := [], [];
    var base, pos, read := 0, 0, 0;
    ghost var b := 0;
    while read < df
      invariant read == |docIDs| <= df && base == Base(ps, read) && Decoded(docIDs, tfs, ps)
      invariant read < df ==> read == 128 * b && b <= FullBlocks(ps) && pos == Offset(ps, b)
    {
      var remaining := df - read;
      if remaining >= BLOCK_SIZE {
        assert b < FullBlocks(ps);
        pos, docIDs, tfs, base := DecodeBlock(data, pos, docBuf, tfBuf, docIDs, tfs, base, ps, b);
        read := read + BLOCK_SIZE;
        b := b + 1;
      } else {
        assert b == FullBlocks(ps);
        docIDs, tfs, base := AppendTail(data, pos, remaining, docIDs, tfs, base, ps);
        read := read + remaining;
      }
    }
  }

  /** A full block: document deltas, then frequencies. */
  method DecodeBlock(data: seq<byte>, pos0: nat, docBuf: array<nat>, tfBuf: array<nat>,
                     docs0: seq<nat>, tfs0: seq<nat>, base0: nat, ghost ps: seq<Posting>, ghost b: nat)
    returns (pos: nat, docIDs: seq<nat>, tfs: seq<nat>, base: nat)
    requires ValidList(ps) && data == EncodeList(ps) && |docs0| == 128 * b && b < FullBlocks(ps)
    requires pos0 == Offset(ps, b) && base0 == Base(ps, |docs0|)
    requires docBuf != tfBuf && docBuf.Length == tfBuf.Length == BLOCK_SIZE
    requires Decoded(docs0, tfs0, ps)
    modifies docBuf, tfBuf
    ensures |docIDs| == |docs0| + 128 && Decoded(docIDs, tfs, ps) && base == Base(ps, |docIDs|) && pos == Offset(ps, b + 1)
  {
    hide *;
    BlockAt(ps, b);
    pos := ReadBlock(data, pos0, docBuf, Deltas(ps, b), TfOffset(ps, b));
    pos := ReadBlock(data, pos, tfBuf, Tfs(ps, b), Offset(ps, b + 1));
    docIDs, tfs, base := AppendBlock(docBuf[..], tfBuf[..], docs0, tfs0, base0, ps, b);
  }

  /** Unpack one block into out and step past it. */
  method ReadBlock(data: seq<byte>, pos: nat, out: array<nat>, ghost vals: seq<nat>, ghost end: nat) returns (pos': nat)
    requires HoldsBlock(data, pos, vals, end) && out.Length == BLOCK_SIZE
    modifies out
    ensures out[..] == vals && pos' == end
  {
    hide Unpacked;
    var n := UnpackFOR32Into(data[pos..], out);
    assert out[..BLOCK_SIZE] == out[..];
    pos' := pos + n;
  }

  method AppendBlock(docBuf: seq<nat>, tfBuf: seq<nat>, docs0: seq<nat>, tfs0: seq<nat>, base0: nat,
                     ghost ps: seq<Posting>, ghost b: nat)
    returns (docIDs: seq<nat>, tfs: seq<nat>, base: nat)
    requires ValidList(ps) && |docs0| == 128 * b && 128 * b + 128 <= |ps|
    requires docBuf == Deltas(ps, b) && tfBuf == Tfs(ps, b) && base0 == Base(ps, |docs0|)
    requires Decoded(docs0, tfs0, ps)
    ensures |docIDs| == |docs0| + 128 && Decoded(docIDs, tfs, ps) && base == Base(ps, |docIDs|)
  {
    docIDs, tfs, base := docs0, tfs0, base0;
    for i := 0 to BLOCK_SIZE
      invariant |docIDs| == |docs0| + i && Decoded(docIDs, tfs, ps) && base == Base(ps, |docIDs|)
    {
      assert docBuf[i] == Delta(ps, |docs0| + i) && tfBuf[i] == ps[|docs0| + i].tf;
      base := base + docBuf[i];
      docIDs := docIDs + [base];
      tfs := tfs + [tfBuf[i]];
    }
  }

  method AppendTail(data: seq<byte>, pos0: nat, remaining: nat, docs0: seq<nat>, tfs0: seq<nat>, base0: nat,
                    ghost ps: seq<Posting>)
    returns (docIDs: seq<nat>, tfs: seq<nat>, base: nat)
    requires ValidList(ps) && data == EncodeList(ps) && |docs0| == 128 * FullBlocks(ps)
    requires |docs0| + remaining == |ps| && pos0 == Offset(ps, FullBlocks(ps)) && base0 == Base(ps, |docs0|)
    requires Decoded(docs0, tfs0, ps)
    ensures |docIDs| == |ps| && Decoded(docIDs, tfs, ps) && base == Base(ps, |ps|)
  {
    hide Blocks, EncodeList, Pairs, Offset, ValidList, Decoded, TailOffset;
    TailStart(ps);
    docIDs, tfs, base := docs0, tfs0, base0;
    var pos := pos0;
    for i := 0 to remaining
      invariant |docIDs| == |docs0| + i && Decoded(docIDs, tfs, ps) && base == Base(ps, |docIDs|) && pos == TailOffset(ps, |docIDs|)
    {
      var delta, tf;
      ghost var k := |docIDs|;
      delta, tf, pos := ReadPair(data, pos, ps, k);
      OneDecoded(docIDs, tfs, ps);
      base := base + delta;
      docIDs := docIDs + [base];
      tfs := tfs + [tf];
      assert |docIDs| == k + 1;
    }
  }

  lemma TailStart(ps: seq<Posting>)
    requires ValidList(ps)
    ensures Offset(ps, FullBlocks(ps)) == TailOffset(ps, 128 * FullBlocks(ps))
  {
    hide Blocks;
  }

  lemma OneDecoded(docs: seq<nat>, tfs: seq<nat>, ps: seq<Posting>)
    requires Decoded(docs, tfs, ps) && |docs| < |ps|
    ensures Decoded(docs + [ps[|docs|].doc], tfs + [ps[|docs|].tf], ps)
  {
  }

  /** One (delta, tf) pair of the tail. */
  method ReadPair(data: seq<byte>, pos0: nat, ghost ps: seq<Posting>, ghost i: nat) returns (delta: nat, tf: nat, pos: nat)
    requires ValidList(ps) && data == EncodeList(ps) && 128 * FullBlocks(ps) <= i < |ps| && pos0 == TailOffset(ps, i)
    ensures delta == Delta(ps, i) && tf == ps[i].tf && pos == TailOffset(ps, i + 1)
  {
    hide Blocks, EncodeList, Pairs, Varint.Terminated, Varint.Value, Varint.Length, TailOffset;
    PairAt(ps, i);
    Pow2Values();
    LowSmall(Delta(ps, i), 64);
    LowSmall(ps[i].tf, 64);
    var n;
    pos := pos0;
    delta, n := Varint.ReadVarint(data, pos);
    pos := pos + n;
    tf, n := Varint.ReadVarint(data, pos);
    pos := pos + n;
  }
}
