/**
 The FOR-32 block codec (internal/codec/blockpack.go and its pure-Go decoder).

 A block of 128 values is a header byte holding the bit width and a
 little-endian bit stream. The meaning of a stream is one big number: the bytes
 are its base-256 digits and the values its base-2^bits digits.
 */
module BlockPack {
  import opened Bits
  import opened WidthPaths

  const BLOCK_SIZE: nat := 128
  const PACK_BUF_SIZE: nat := 513

  // ----- the format

  /** The number whose base-2^bits digits are vals. */
  function Stream(vals: seq<nat>, bits: nat): nat {
    if vals == [] then 0 else vals[0] + Scale(Stream(vals[1..], bits), bits)
  }

  /** Digit i, base 2^bits, of n. */
  function Field(n: nat, bits: nat, i: nat): nat {
    Low(Drop(n, bits * i), bits)
  }

  /** Every value fits the width. */
  ghost predicate Fits(vals: seq<nat>, bits: nat) {
    forall i :: 0 <= i < |vals| ==> vals[i] < Pow2(bits)
  }

  function StreamBytes(n: nat, bits: nat): nat { (bits * n + 7) / 8 }

  function PackBits(vals: seq<nat>, bits: nat): (bs: seq<byte>)
    ensures |bs| == StreamBytes(|vals|, bits)
  {
    ToLE(Stream(vals, bits), StreamBytes(|vals|, bits))
  }

  function MaxOf(vals: seq<nat>): (m: nat)
    ensures forall i :: 0 <= i < |vals| ==> vals[i] <= m
    ensures m == 0 || m in vals
  {
    if vals == [] then 0
    else var m := MaxOf(vals[1..]); if vals[0] > m then vals[0] else m
  }

  /** The number of binary digits of v, 0 for 0. */
  function BitLen(v: nat): (n: nat)
    ensures v < Pow2(n)
    ensures v > 0 ==> n > 0 && Pow2(n - 1) <= v
  {
    if v == 0 then 0 else 1 + BitLen(v / 2)
  }

  /** The bytes of one block: the header, and the stream when some value is not zero. */
  function Block(vals: seq<nat>): (bs: seq<byte>)
    requires |vals| == BLOCK_SIZE && forall i :: 0 <= i < |vals| ==> vals[i] < 0x1_0000_0000
    ensures 1 <= |bs| == 1 + 16 * BitLen(MaxOf(vals)) <= PACK_BUF_SIZE && bs[0] == BitLen(MaxOf(vals))
  {
    var bits := BitLen(MaxOf(vals));
    Pow2Values(); BitLenBound(MaxOf(vals), 32);
    [bits] + PackBits(vals, bits)
  }

  /** What a block's bytes decode to: 128 digits of the stream after the header. */
  function Unpacked(src: seq<byte>): (vals: seq<nat>)
    requires WellFormed(src)
    ensures |vals| == BLOCK_SIZE
  {
    var bits: nat := src[0];
    var data := src[1..1 + 16 * bits];
    seq(BLOCK_SIZE, i requires 0 <= i < BLOCK_SIZE => Field(LE(data), bits, i))
  }

  /** A header of at most 32 bits followed by at least the stream it announces. */
  predicate WellFormed(src: seq<byte>) {
    |src| > 0 && src[0] <= 32 && 1 + 16 * (src[0] as int) <= |src|
  }

  lemma {:induction false} BitLenBound(v: nat, k: nat)
    requires v < Pow2(k)
    ensures BitLen(v) <= k
  {
    if v > 0 { BitLenBound(v / 2, k - 1); }
  }

  // ----- streams

  lemma {:induction false} StreamAppend(vals: seq<nat>, v: nat, bits: nat)
    ensures Stream(vals + [v], bits) == Stream(vals, bits) + Scale(v, bits * |vals|)
  {
    if vals == [] {
      assert [v][1..] == [];
      ScaleZero(bits);
    } else {
      assert (vals + [v])[1..] == vals[1..] + [v];
      StreamAppend(vals[1..], v, bits);
      ScaleAdd(Stream(vals[1..], bits), Scale(v, bits * (|vals| - 1)), bits);
      ScaleScale(v, bits * (|vals| - 1), bits);
      MulSucc(bits, |vals| - 1);
    }
  }

  lemma MulSucc(a: nat, k: nat)
    ensures a * (k + 1) == a * k + a && (k + 1) * a == k * a + a && a * k >= 0
  {
  }

  lemma {:induction false} StreamField(vals: seq<nat>, bits: nat, i: nat)
    requires Fits(vals, bits) && i < |vals|
    ensures Field(Stream(vals, bits), bits, i) == vals[i]
  {
    var rest := Stream(vals[1..], bits);
    Join(vals[0], rest, bits);
    if i > 0 {
      StreamField(vals[1..], bits, i - 1);
      MulSucc(bits, i - 1);
      DropDrop(Stream(vals, bits), bits, bits * (i - 1));
    }
  }

  lemma {:induction false} StreamBound(vals: seq<nat>, bits: nat)
    requires Fits(vals, bits)
    ensures Stream(vals, bits) < Pow2(bits * |vals|)
  {
    if vals != [] {
      StreamBound(vals[1..], bits);
      MulSucc(bits, |vals| - 1);
      ScaleBound(Stream(vals[1..], bits), vals[0], bits * (|vals| - 1), bits);
    }
  }

  /** Field k of the group of c bytes at c*g is field m*g + k of the whole stream. */
  lemma GroupField(data: seq<byte>, c: nat, m: nat, bits: nat, g: nat, k: nat)
    requires m * bits == 8 * c && k < m && 0 <= c * g && c * g + c <= |data|
    ensures Field(LE(data), bits, m * g + k) == Field(LE(data[c * g..c * g + c]), bits, k)
  {
    hide LE, Low, Drop;
    FieldPosition(c, m, bits, g, k);
    var at, off := c * g, bits * k;
    GroupFieldAt(data, at, c, off, bits);
  }

  lemma FieldPosition(c: nat, m: nat, bits: nat, g: nat, k: nat)
    requires m * bits == 8 * c && k < m
    ensures bits * (m * g + k) == 8 * (c * g) + bits * k
    ensures 0 <= bits * k && bits * k + bits <= 8 * c && m * g >= 0
  {
    assert bits * (m * g + k) == bits * (m * g) + bits * k;
    assert bits * (m * g) == (m * bits) * g;
    assert (8 * c) * g == 8 * (c * g);
    MulStep(bits, k, m);
    NonNeg(m, g);
  }

  lemma GroupFieldAt(data: seq<byte>, at: nat, c: nat, k: nat, bits: nat)
    requires at + c <= |data| && k + bits <= 8 * c
    ensures Low(Drop(LE(data), 8 * at + k), bits) == Low(Drop(LE(data[at..at + c]), k), bits)
  {
    var pre, rest := data[..at], data[at..];
    var grp, post := rest[..c], rest[c..];
    assert data == pre + rest && rest == grp + post && grp == data[at..at + c];
    LEAppend(pre, rest);
    LEBound(pre);
    Join(LE(pre), LE(rest), 8 * at);
    DropDrop(LE(data), 8 * at, k);
    LEAppend(grp, post);
    FieldAbove(LE(grp), LE(post), k, bits, 8 * c);
  }

  // ----- packing

  method Bits32Len(v: u32) returns (n: nat)
    ensures n == BitLen(v)
  {
    n := 0;
    var x: nat := v;
    while x > 0
      invariant n + BitLen(x) == BitLen(v)
    {
      assert Drop(x, 1) == Drop(x / 2, 0) == x / 2;
      x := Drop(x, 1);
      n := n + 1;
    }
  }

  /** dst[at..] is the code's dst slice. */
  method PackBits32(vals: seq<nat>, bits: nat, dst: array<byte>, at: nat)
    requires bits <= 32 && Fits(vals, bits)
    requires at + StreamBytes(|vals|, bits) <= dst.Length
    modifies dst
    ensures dst[at..at + StreamBytes(|vals|, bits)] == PackBits(vals, bits)
    ensures dst[..at] == old(dst[..at])
    ensures dst[at + StreamBytes(|vals|, bits)..] == old(dst[at + StreamBytes(|vals|, bits)..])
  {
    var bitBuf: u64, filled: nat := 0, 0;
    var di := 0;
    ghost var n, total := StreamBytes(|vals|, bits), 0;
    for i := 0 to |vals|
      invariant filled < 8 && 8 * di + filled == bits * i && di <= n && bitBuf < Pow2(filled)
      invariant LE(dst[at..at + di]) + Scale(bitBuf, 8 * di) == total == Stream(vals[..i], bits)
      invariant dst[..at] == old(dst[..at]) && dst[at + n..] == old(dst[at + n..])
    {
      hide LE, Scale, Pow2, Stream;
      assert vals[..i + 1] == vals[..i] + [vals[i]];
      StreamAppend(vals[..i], vals[i], bits);
      MulStep(bits, i, |vals|);
      di, bitBuf, filled := PackOne(dst, at, di, bitBuf, filled, vals[i], bits, n, total);
      total := Stream(vals[..i + 1], bits);
    }
    assert vals[..|vals|] == vals;
    EmitLast(dst, at, di, bitBuf, filled, n, total);
  }

  /** One turn of the packing loop: buffer a value, write out the bytes that are complete. */
  method PackOne(dst: array<byte>, at: nat, di0: nat, buf0: u64, filled0: nat, v: nat, bits: nat,
                 ghost n: nat, ghost total: nat)
    returns (di: nat, bitBuf: u64, filled: nat)
    requires filled0 < 8 && bits <= 32 && buf0 < Pow2(filled0) && v < Pow2(bits)
    requires 8 * di0 + filled0 + bits <= 8 * n && at + n <= dst.Length
    requires LE(dst[at..at + di0]) + Scale(buf0, 8 * di0) == total
    modifies dst
    ensures filled < 8 && 8 * di + filled == 8 * di0 + filled0 + bits && bitBuf < Pow2(filled)
    ensures LE(dst[at..at + di]) + Scale(bitBuf, 8 * di) == total + Scale(v, 8 * di0 + filled0)
    ensures dst[..at] == old(dst[..at]) && dst[at + n..] == old(dst[at + n..])
  {
    bitBuf := BufferValue(buf0, v, filled0, bits, di0);
    di, bitBuf, filled := EmitBytes(dst, at, di0, bitBuf, filled0 + bits, n, total + Scale(v, 8 * di0 + filled0));
  }

  /** Or a value in above the bits already buffered: nothing is lost from the 64-bit word. */
  method BufferValue(buf: u64, v: nat, filled: nat, bits: nat, ghost di: nat) returns (w: u64)
    requires filled < 8 && bits <= 32 && buf < Pow2(filled) && v < Pow2(bits)
    ensures w < Pow2(filled + bits)
    ensures Scale(w, 8 * di) == Scale(buf, 8 * di) + Scale(v, 8 * di + filled)
  {
    OrIn(buf, v, filled, bits);
    ScaleAdd(buf, Scale(v, filled), 8 * di);
    ScaleScale(v, filled, 8 * di);
    assert filled + 8 * di == 8 * di + filled;
    w := Or(buf, Shl(v, filled));
  }

  lemma MulStep(a: nat, i: nat, n: nat)
    requires i < n
    ensures 0 <= a * i && a * (i + 1) == a * i + a <= a * n
  {
    var d := n - (i + 1);
    assert a * n == a * (i + 1) + a * d;
    NonNeg(a, d);
    NonNeg(a, i);
  }

  lemma NonNeg(a: nat, b: nat)
    ensures a * b >= 0
  {
  }

  /** Write whole bytes out of the bit buffer; total, the number being spelt out, does not change. */
  method EmitBytes(dst: array<byte>, at: nat, di0: nat, buf0: u64, filled0: nat, ghost n: nat, ghost total: nat)
    returns (di: nat, bitBuf: u64, filled: nat)
    requires 8 * di0 + filled0 <= 8 * n && at + n <= dst.Length && buf0 < Pow2(filled0)
    requires LE(dst[at..at + di0]) + Scale(buf0, 8 * di0) == total
    modifies dst
    ensures filled < 8 && 8 * di + filled == 8 * di0 + filled0 && bitBuf < Pow2(filled)
    ensures LE(dst[at..at + di]) + Scale(bitBuf, 8 * di) == total
    ensures dst[..at] == old(dst[..at]) && dst[at + n..] == old(dst[at + n..])
  {
    hide LE, Scale, Drop, Pow2;
    di, bitBuf, filled := di0, buf0, filled0;
    while filled >= 8
      invariant 8 * di + filled == 8 * di0 + filled0 && bitBuf < Pow2(filled)
      invariant LE(dst[at..at + di]) + Scale(bitBuf, 8 * di) == total
      invariant dst[..at] == old(dst[..at]) && dst[at + n..] == old(dst[at + n..])
    {
      ghost var before := dst[at..at + di];
      dst[at + di] := bitBuf % 256;
      assert dst[at..at + (di + 1)] == before + [bitBuf % 256];
      EmitByte(before, bitBuf, filled);
      bitBuf := Drop(bitBuf, 8);
      filled := filled - 8;
      di := di + 1;
    }
  }

  /** The last, partly filled byte. */
  method EmitLast(dst: array<byte>, at: nat, di: nat, bitBuf: u64, filled: nat, ghost n: nat, ghost total: nat)
    requires filled < 8 && 8 * n - 7 <= 8 * di + filled <= 8 * n && at + n <= dst.Length && bitBuf < Pow2(filled)
    requires LE(dst[at..at + di]) + Scale(bitBuf, 8 * di) == total
    modifies dst
    ensures dst[at..at + n] == ToLE(total, n)
    ensures dst[..at] == old(dst[..at]) && dst[at + n..] == old(dst[at + n..])
  {
    ghost var before := dst[at..at + di];
    if filled > 0 {
      LastByte(before, bitBuf, filled);
      dst[at + di] := bitBuf % 256;
      assert dst[at..at + n] == before + [bitBuf % 256];
    } else {
      ScaleZero(8 * di);
    }
    LEUnique(dst[at..at + n]);
  }

  lemma LastByte(e: seq<byte>, buf: nat, filled: nat)
    requires filled <= 8 && buf < Pow2(filled)
    ensures LE(e + [buf % 256]) == LE(e) + Scale(buf, 8 * |e|)
  {
    hide LE, Scale;
    assert buf < 256 by { Pow2Mono(filled, 8); Pow2Values(); }
    assert buf % 256 == buf;
    LEAppend(e, [buf]);
    LEOne(buf);
  }

  lemma EmitByte(e: seq<byte>, buf: nat, filled: nat)
    requires 8 <= filled && buf < Pow2(filled)
    ensures LE(e + [buf % 256]) + Scale(Drop(buf, 8), 8 * (|e| + 1)) == LE(e) + Scale(buf, 8 * |e|)
    ensures Drop(buf, 8) < Pow2(filled - 8) && Drop(buf, 8) <= buf
  {
    hide LE, Drop, Scale, Pow2;
    LEAppend(e, [buf % 256]);
    LEOne(buf % 256);
    ByteSteps(buf);
    Split(buf, 8);
    ScaleAdd(buf % 256, Scale(buf / 256, 8), 8 * |e|);
    ScaleScale(buf / 256, 8, 8 * |e|);
    DropBound(buf, filled, 8);
  }

  method PackFOR32(vals: seq<u32>, dst: array<byte>) returns (n: nat)
    requires |vals| == BLOCK_SIZE && dst.Length >= PACK_BUF_SIZE
    modifies dst
    ensures n <= PACK_BUF_SIZE && dst[..n] == Block(vals)
  {
    hide Pow2, BitLen, PackBits, MaxOf;
    var maxVal := MaxValue(vals);
    var bits := Bits32Len(maxVal);
    Pow2Values();
    BitLenBound(maxVal, 32);
    dst[0] := bits;
    if bits == 0 {
      PackNothing(vals);
      return 1;
    }
    PackBits32(vals, bits, dst, 1);
    n := 1 + (BLOCK_SIZE * bits + 7) / 8;
    assert dst[..n] == dst[..1] + dst[1..n];
    assert dst[..1] == [bits];
  }

  /** The maximum scan at the start of PackFOR32. */
  method MaxValue(vals: seq<u32>) returns (maxVal: u32)
    requires |vals| == BLOCK_SIZE
    ensures maxVal == MaxOf(vals)
  {
    maxVal := 0;
    for i := 0 to BLOCK_SIZE
      invariant forall j :: 0 <= j < i ==> vals[j] <= maxVal
      invariant maxVal == 0 || maxVal in vals
    {
      if vals[i] > maxVal { maxVal := vals[i]; }
    }
  }

  lemma PackNothing(vals: seq<nat>)
    ensures PackBits(vals, 0) == []
  {
  }

  // ----- unpacking

  /** The word of n bytes at o, or-ed together as the code does. */
  method LoadWord(data: seq<byte>, o: nat, n: nat) returns (w: u64)
    requires n <= 8 && o + n <= |data|
    ensures w == LE(data[o..o + n])
  {
    hide Or, Shl;
    w := 0;
    for j := 0 to n
      invariant w == LE(data[o..o + j]) < Pow2(8 * j)
    {
      LoadStep(data, o, j);
      w := Or(w, Shl(data[o + j], 8 * j));
    }
  }

  lemma LoadStep(data: seq<byte>, o: nat, j: nat)
    requires j < 8 && o + j < |data| && LE(data[o..o + j]) < Pow2(8 * j)
    ensures var next := j + 1; LE(data[o..o + next]) == Or(LE(data[o..o + j]), Shl(data[o + j], 8 * j)) < Pow2(8 * next)
    ensures LE(data[o..o + j + 1]) < U64
  {
    hide LE, Or, Shl, Scale;
    var b := data[o + j];
    assert data[o..o + j + 1] == data[o..o + j] + [b];
    LEAppend(data[o..o + j], [b]);
    LEOne(b);
    Pow2Values();
    OrIn(LE(data[o..o + j]), b, 8 * j, 8);
  }

  /** The generic bit-stream decoder: 128 digits of data, width bits. */
  method UnpackBits32(data: seq<byte>, bits: nat, out: array<nat>)
    requires 0 < bits <= 32 && |data| >= 16 * bits && out.Length >= BLOCK_SIZE
    modifies out
    ensures forall i :: 0 <= i < BLOCK_SIZE ==> out[i] == Field(LE(data[..16 * bits]), bits, i)
    ensures forall j :: BLOCK_SIZE <= j < out.Length ==> out[j] == old(out[j])
  {
    ghost var all := data[..16 * bits];
    var bitBuf: u64, filled: nat := 0, 0;
    var si := 0;
    for i := 0 to BLOCK_SIZE
      invariant filled < 8 && 8 * si == bits * i + filled && bitBuf < Pow2(filled)
      invariant si <= 16 * bits && bitBuf == Drop(LE(data[..si]), bits * i)
      invariant forall j {:trigger out[j]} :: 0 <= j < i ==> out[j] == Field(LE(all), bits, j)
      invariant forall j :: BLOCK_SIZE <= j < out.Length ==> out[j] == old(out[j])
    {
      MulStep(bits, i, BLOCK_SIZE);
      bitBuf, filled, si := Refill(data, bits, bits * i, bitBuf, filled, si);
      assert all[..si] == data[..si];
      TakeField(all, si, bits, bits * i);
      AndMask(bitBuf, bits);
      out[i] := And(bitBuf, Pow2(bits) - 1);
      DropDrop(LE(data[..si]), bits * i, bits);
      DropBound(bitBuf, filled, bits);
      DropLess(bitBuf, bits);
      bitBuf := Drop(bitBuf, bits);
      filled := filled - bits;
    }
  }

  lemma RefillStep(data: seq<byte>, p: nat, buf: u64, filled: nat, si: nat)
    requires filled < 32 && 8 * si == p + filled && si < |data| && buf == Drop(LE(data[..si]), p) < Pow2(filled)
    ensures var next, more := si + 1, filled + 8;
            Or(buf, Shl(data[si], filled)) == Drop(LE(data[..next]), p) < Pow2(more)
    ensures Or(buf, Shl(data[si], filled)) < U64
  {
    hide Or, Shl, LE, Drop;
    var b := data[si];
    assert data[..si + 1] == data[..si] + [b];
    LEAppend(data[..si], [b]);
    LEOne(b);
    DropAbove(LE(data[..si]), b, p, 8 * si);
    Pow2Values();
    OrIn(buf, b, filled, 8);
  }

  /** Read bytes into the bit buffer until it holds one more value. */
  method Refill(data: seq<byte>, bits: nat, ghost p: nat, buf0: u64, filled0: nat, si0: nat)
    returns (bitBuf: u64, filled: nat, si: nat)
    requires 0 < bits <= 32 && filled0 < 8 && 8 * si0 == p + filled0 && buf0 < Pow2(filled0)
    requires p + bits <= 8 * |data| && buf0 == Drop(LE(data[..si0]), p)
    ensures bits <= filled < bits + 8 && 8 * si == p + filled && si <= |data|
    ensures bitBuf == Drop(LE(data[..si]), p) < Pow2(filled)
  {
    hide Or, Shl, LE, Drop, Pow2;
    bitBuf, filled, si := buf0, filled0, si0;
    while filled < bits
      invariant filled < bits + 8 && 8 * si == p + filled && bitBuf < Pow2(filled)
      invariant si <= |data| && bitBuf == Drop(LE(data[..si]), p)
    {
      RefillStep(data, p, bitBuf, filled, si);
      bitBuf := Or(bitBuf, Shl(data[si], filled));
      filled := filled + 8;
      si := si + 1;
    }
  }

  lemma TakeField(all: seq<byte>, si: nat, bits: nat, p: nat)
    requires si <= |all| && p + bits <= 8 * si
    ensures Low(Drop(LE(all[..si]), p), bits) == Low(Drop(LE(all), p), bits)
  {
    GroupFieldAt(all, 0, si, p, bits);
  }

  // ----- the specialised width paths

  /** A width path: group by group, each assembled into at most two words and cut line by line. */
  method UnpackGroups(data: seq<byte>, bits: nat, out: array<nat>)
    requires Specialised(bits) && |data| == 16 * bits && out.Length >= BLOCK_SIZE
    modifies out
    ensures forall i :: 0 <= i < BLOCK_SIZE ==> out[i] == Field(LE(data), bits, i)
    ensures forall i :: BLOCK_SIZE <= i < out.Length ==> out[i] == old(out[i])
  {
    hide Lines;
    var m, c := |Lines(bits)|, GroupBytes(bits);
    var groups := Groups(bits);
    for g := 0 to groups
      invariant forall i :: 0 <= i < m * g ==> out[i] == Field(LE(data), bits, i)
      invariant forall i :: BLOCK_SIZE <= i < out.Length ==> out[i] == old(out[i])
    {
      MulStep(c, g, groups);
      MulStep(m, g, groups);
      UnpackGroup(data, bits, g, out);
    }
  }

  /** How many groups a block has: 16 of eight values, 64 of two, or one per value. */
  function Groups(bits: nat): (n: nat)
    requires Specialised(bits)
    ensures |Lines(bits)| > 0 && |Lines(bits)| * n == BLOCK_SIZE && GroupBytes(bits) * n == 16 * bits
  {
    if bits == 4 then 64 else if bits == 8 || bits == 16 || bits == 24 then 128 else 16
  }

  /** The values of group g. */
  method UnpackGroup(data: seq<byte>, bits: nat, g: nat, out: array<nat>)
    requires Specialised(bits)
    requires var c, m := GroupBytes(bits), |Lines(bits)|;
             0 <= c * g && c * g + c <= |data| && 0 <= m * g && m * g + m <= out.Length
    modifies out
    ensures var m := |Lines(bits)|; forall i :: m * g <= i < m * g + m ==> out[i] == Field(LE(data), bits, i)
    ensures var m := |Lines(bits)|; forall i :: 0 <= i < m * g || m * g + m <= i < out.Length ==> out[i] == old(out[i])
  {
    hide Field, LE, Lines, GroupBytes, Cut;
    var c, m := GroupBytes(bits), |Lines(bits)|;
    var at := m * g;
    GroupFits(bits);
    var lo, hi := LoadWords(data, c * g, c);
    for k := 0 to m
      invariant forall i :: at <= i < at + k ==> out[i] == Field(LE(data), bits, i)
      invariant forall i :: 0 <= i < at || at + m <= i < out.Length ==> out[i] == old(out[i])
    {
      LineValue(data, bits, g, k, lo, hi);
      out[at + k] := Cut(Lines(bits)[k], lo, hi);
    }
  }

  lemma GroupFits(bits: nat)
    requires Specialised(bits)
    ensures 0 < GroupBytes(bits) <= 16
  {
  }

  /** Line k of a group gives value k of it. */
  lemma LineValue(data: seq<byte>, bits: nat, g: nat, k: nat, lo: u64, hi: u64)
    requires Specialised(bits) && k < |Lines(bits)|
    requires var c, m := GroupBytes(bits), |Lines(bits)|;
             && 0 <= c * g && c * g + c <= |data| && 0 <= m * g && lo + Scale(hi, 64) == LE(data[c * g..c * g + c])
             && (c <= 8 ==> hi == 0)
    ensures Cut(Lines(bits)[k], lo, hi) == Field(LE(data), bits, |Lines(bits)| * g + k)
  {
    hide LE, Low, Drop, Scale, Lines, GroupBytes, Cut, CutsAt;
    var c, m := GroupBytes(bits), |Lines(bits)|;
    LinesCutFields(bits, k);
    GroupField(data, c, m, bits, g, k);
    FieldPosition(c, m, bits, g, k);
    LEBound(data[c * g..c * g + c]);
    ScaleZero(64);
    CutIsField(Lines(bits)[k], lo, hi, bits * k, bits, c);
  }

  method LoadWords(data: seq<byte>, at: nat, c: nat) returns (lo: u64, hi: u64)
    requires c <= 16 && at + c <= |data|
    ensures lo + Scale(hi, 64) == LE(data[at..at + c]) && (c <= 8 ==> hi == 0)
  {
    lo := LoadWord(data, at, if c < 8 then c else 8);
    hi := 0;
    if c > 8 {
      hi := LoadWord(data, at + 8, c - 8);
    }
    WordPair(data, at, c, lo, hi);
  }

  lemma WordPair(data: seq<byte>, at: nat, c: nat, lo: nat, hi: nat)
    requires at + c <= |data| && lo == LE(data[at..at + if c < 8 then c else 8])
    requires hi == if c > 8 then LE(data[at + 8..at + c]) else 0
    ensures LE(data[at..at + c]) == lo + Scale(hi, 64)
  {
    if c > 8 {
      assert data[at..at + c] == data[at..at + 8] + data[at + 8..at + c];
      LEAppend(data[at..at + 8], data[at + 8..at + c]);
    } else {
      ScaleZero(64);
    }
  }

  method UnpackFOR32Into(src: seq<byte>, out: array<nat>) returns (n: nat)
    requires WellFormed(src) && out.Length >= BLOCK_SIZE
    modifies out
    ensures n == 1 + 16 * (src[0] as int)
    ensures out[..BLOCK_SIZE] == Unpacked(src)
    ensures forall i :: BLOCK_SIZE <= i < out.Length ==> out[i] == old(out[i])
  {
    var bits: nat := src[0];
    if bits == 0 {
      for i := 0 to BLOCK_SIZE
        invariant forall j :: 0 <= j < i ==> out[j] == 0
        invariant forall j :: BLOCK_SIZE <= j < out.Length ==> out[j] == old(out[j])
      {
        out[i] := 0;
      }
      return 1;
    }
    var data := src[1..1 + 16 * bits];
    if Specialised(bits) {
      UnpackGroups(data, bits, out);
    } else {
      UnpackBits32(data, bits, out);
      assert data[..16 * bits] == data;
    }
    n := 1 + (BLOCK_SIZE * bits + 7) / 8;
  }

  // ----- round trip

  /**
   Decoding a packed block, whatever bytes follow it, gives back its 128 values
   and consumes exactly the bytes that packing produced.
   */
  lemma BlockRoundTrip(vals: seq<nat>, post: seq<byte>)
    requires |vals| == BLOCK_SIZE && forall i :: 0 <= i < |vals| ==> vals[i] < 0x1_0000_0000
    ensures var src := Block(vals) + post;
            WellFormed(src) && Unpacked(src) == vals && 1 + 16 * (src[0] as int) == |Block(vals)|
  {
    var bits := BitLen(MaxOf(vals));
    BitLenBound(MaxOf(vals), 32) by { Pow2Values(); }
    var src := Block(vals) + post;
    assert src[1..1 + 16 * bits] == PackBits(vals, bits);
    PackBitsFields(vals, bits);
    assert Unpacked(src) == vals;
  }

  lemma PackBitsFields(vals: seq<nat>, bits: nat)
    requires |vals| == BLOCK_SIZE && Fits(vals, bits)
    ensures forall i :: 0 <= i < BLOCK_SIZE ==> Field(LE(PackBits(vals, bits)), bits, i) == vals[i]
  {
    PackBitsValue(vals, bits);
    forall i | 0 <= i < BLOCK_SIZE ensures Field(LE(PackBits(vals, bits)), bits, i) == vals[i] {
      StreamField(vals, bits, i);
    }
  }

  lemma PackBitsValue(vals: seq<nat>, bits: nat)
    requires |vals| == BLOCK_SIZE && Fits(vals, bits)
    ensures LE(PackBits(vals, bits)) == Stream(vals, bits)
  {
    assert bits * |vals| == 8 * (16 * bits) && StreamBytes(|vals|, bits) == 16 * bits;
    StreamBound(vals, bits);
    LEToLE(Stream(vals, bits), 16 * bits);
    LowSmall(Stream(vals, bits), 8 * (16 * bits));
  }
}
