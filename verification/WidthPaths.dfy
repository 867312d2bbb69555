/**
 The unrolled width paths of internal/codec/blockpack_nocgo.go, line by line: the
 shifts and masks as they are written there, and that each cuts the right field
 out of the two words of its group.
 */
module WidthPaths {
  import opened Bits

  /**
   How one value is cut out: (lo >> shift) & mask, ((lo >> a) | (hi << b)) & mask,
   (hi >> shift) & mask, or what is left of the word, lo >> shift.
   */
  datatype Line =
    | InLo(shift: nat, mask: nat)
    | Across(a: nat, b: nat, mask: nat)
    | InHi(shift: nat, mask: nat)
    | Top(shift: nat)

  /** The widths with a path of their own. */
  predicate Specialised(bits: nat) {
    1 <= bits <= 16 || bits == 24
  }

  /** The bytes of one group. */
  function GroupBytes(bits: nat): nat {
    if bits == 4 || bits == 8 then 1 else if bits == 16 then 2 else if bits == 24 then 3 else bits
  }

  /** The lines of one group, in the order they are written. */
  function Lines(bits: nat): seq<Line> {
    if bits == 8 || bits == 16 || bits == 24 then [Top(0)] else if bits < 8 then NarrowLines(bits) else WideLines(bits)
  }

  function NarrowLines(bits: nat): seq<Line> {
    if bits == 1 then
      [InLo(0, 1), InLo(1, 1), InLo(2, 1), InLo(3, 1),
       InLo(4, 1), InLo(5, 1), InLo(6, 1), Top(7)]
    else if bits == 2 then
      [InLo(0, 3), InLo(2, 3), InLo(4, 3), InLo(6, 3),
       InLo(8, 3), InLo(10, 3), InLo(12, 3), InLo(14, 3)]
    else if bits == 3 then
      [InLo(0, 7), InLo(3, 7), InLo(6, 7), InLo(9, 7),
       InLo(12, 7), InLo(15, 7), InLo(18, 7), InLo(21, 7)]
    else if bits == 4 then [InLo(0, 0x0F), Top(4)]
    else if bits == 5 then
      [InLo(0, 31), InLo(5, 31), InLo(10, 31), InLo(15, 31),
       InLo(20, 31), InLo(25, 31), InLo(30, 31), InLo(35, 31)]
    else if bits == 6 then
      [InLo(0, 63), InLo(6, 63), InLo(12, 63), InLo(18, 63),
       InLo(24, 63), InLo(30, 63), InLo(36, 63), InLo(42, 63)]
    else if bits == 7 then
      [InLo(0, 127), InLo(7, 127), InLo(14, 127), InLo(21, 127),
       InLo(28, 127), InLo(35, 127), InLo(42, 127), InLo(49, 127)]
    else []
  }

  function WideLines(bits: nat): seq<Line> {
    if bits == 9 then
      [InLo(0, 0x1FF), InLo(9, 0x1FF), InLo(18, 0x1FF), InLo(27, 0x1FF),
       InLo(36, 0x1FF), InLo(45, 0x1FF), InLo(54, 0x1FF), Across(63, 1, 0x1FF)]
    else if bits == 10 then
      [InLo(0, 0x3FF), InLo(10, 0x3FF), InLo(20, 0x3FF), InLo(30, 0x3FF),
       InLo(40, 0x3FF), InLo(50, 0x3FF), Across(60, 4, 0x3FF), InHi(6, 0x3FF)]
    else if bits == 11 then
      [InLo(0, 0x7FF), InLo(11, 0x7FF), InLo(22, 0x7FF), InLo(33, 0x7FF),
       InLo(44, 0x7FF), Across(55, 9, 0x7FF), InHi(2, 0x7FF), InHi(13, 0x7FF)]
    else if bits == 12 then
      [InLo(0, 0xFFF), InLo(12, 0xFFF), InLo(24, 0xFFF), InLo(36, 0xFFF),
       InLo(48, 0xFFF), Across(60, 4, 0xFFF), InHi(8, 0xFFF), InHi(20, 0xFFF)]
    else if bits == 13 then
      [InLo(0, 0x1FFF), InLo(13, 0x1FFF), InLo(26, 0x1FFF), InLo(39, 0x1FFF),
       Across(52, 12, 0x1FFF), InHi(1, 0x1FFF), InHi(14, 0x1FFF), InHi(27, 0x1FFF)]
    else if bits == 14 then
      [InLo(0, 0x3FFF), InLo(14, 0x3FFF), InLo(28, 0x3FFF), InLo(42, 0x3FFF),
       Across(56, 8, 0x3FFF), InHi(6, 0x3FFF), InHi(20, 0x3FFF), InHi(34, 0x3FFF)]
    else if bits == 15 then
      [InLo(0, 0x7FFF), InLo(15, 0x7FFF), InLo(30, 0x7FFF), InLo(45, 0x7FFF),
       Across(60, 4, 0x7FFF), InHi(11, 0x7FFF), InHi(26, 0x7FFF), InHi(41, 0x7FFF)]
    else []
  }

  /** The value a line computes. */
  function Cut(line: Line, lo: nat, hi: nat): nat {
    match line
    case InLo(shift, mask) => And(Drop(lo, shift), mask)
    case Across(a, b, mask) => And(Or(Drop(lo, a), Shl(hi, b)), mask)
    case InHi(shift, mask) => And(Drop(hi, shift), mask)
    case Top(shift) => Drop(lo, shift)
  }

  /** The line's constants are those of the field of the given width at offset off of a group of c bytes. */
  ghost predicate CutsAt(line: Line, off: nat, bits: nat, c: nat) {
    match line
    case InLo(shift, mask) => shift == off && off + bits <= 64 && mask == Pow2(bits) - 1
    case Across(a, b, mask) => a == off < 64 && a + b == 64 && mask == Pow2(bits) - 1
    case InHi(shift, mask) => shift + 64 == off && mask == Pow2(bits) - 1
    case Top(shift) => shift == off && off + bits == 8 * c && c <= 8
  }

  lemma SmallPowers()
    ensures Pow2(1) == 2 && Pow2(2) == 4 && Pow2(3) == 8 && Pow2(4) == 16 && Pow2(5) == 32 && Pow2(6) == 64 && Pow2(7) == 128
    ensures Pow2(9) == 0x200 && Pow2(10) == 0x400 && Pow2(11) == 0x800 && Pow2(12) == 0x1000
    ensures Pow2(13) == 0x2000 && Pow2(14) == 0x4000 && Pow2(15) == 0x8000
  {
    Pow2Values();
    assert Pow2(3) == 8;
    assert Pow2(6) == 64;
    assert Pow2(10) == 0x400;
    assert Pow2(12) == 0x1000;
    assert Pow2(14) == 0x4000;
  }

  /** A group holds whole values, and every line of every path cuts field k of it. */
  lemma LinesCutFields(bits: nat, k: nat)
    requires Specialised(bits) && k < |Lines(bits)|
    ensures |Lines(bits)| * bits == 8 * GroupBytes(bits) && GroupBytes(bits) <= 16
    ensures CutsAt(Lines(bits)[k], bits * k, bits, GroupBytes(bits))
  {
    hide Pow2;
    SmallPowers();
    if bits < 8 {
      NarrowCut(bits, k);
    } else if 8 < bits < 16 {
      WideCut(bits, k);
    }
  }

  lemma NarrowCut(bits: nat, k: nat)
    requires 1 <= bits < 8 && k < |NarrowLines(bits)|
    ensures |NarrowLines(bits)| == if bits == 4 then 2 else 8
    ensures CutsAt(NarrowLines(bits)[k], bits * k, bits, GroupBytes(bits))
  {
    hide Pow2;
    SmallPowers();
  }

  lemma WideCut(bits: nat, k: nat)
    requires 9 <= bits < 16 && k < |WideLines(bits)|
    ensures |WideLines(bits)| == 8
    ensures CutsAt(WideLines(bits)[k], bits * k, bits, GroupBytes(bits))
  {
    hide WideLines, CutsAt, GroupBytes;
    if bits < 11 { Cut9To10(bits, k); } else if bits < 13 { Cut11To12(bits, k); } else { Cut13To15(bits, k); }
  }

  lemma Cut9To10(bits: nat, k: nat)
    requires 9 <= bits < 11 && k < |WideLines(bits)|
    ensures |WideLines(bits)| == 8 && CutsAt(WideLines(bits)[k], bits * k, bits, GroupBytes(bits))
  {
    hide Pow2;
    SmallPowers();
  }

  lemma Cut11To12(bits: nat, k: nat)
    requires 11 <= bits < 13 && k < |WideLines(bits)|
    ensures |WideLines(bits)| == 8 && CutsAt(WideLines(bits)[k], bits * k, bits, GroupBytes(bits))
  {
    hide Pow2;
    SmallPowers();
  }

  lemma Cut13To15(bits: nat, k: nat)
    requires 13 <= bits < 16 && k < |WideLines(bits)|
    ensures |WideLines(bits)| == 8 && CutsAt(WideLines(bits)[k], bits * k, bits, GroupBytes(bits))
  {
    hide Pow2;
    SmallPowers();
  }

  /** The bits at off of the pair of words lo and hi, by any of the four forms. */
  lemma CutIsField(line: Line, lo: u64, hi: u64, off: nat, bits: nat, c: nat)
    requires CutsAt(line, off, bits, c) && bits <= 32 && off + bits <= 8 * c
    requires c <= 8 ==> hi == 0 && lo < Pow2(8 * c)
    ensures Cut(line, lo, hi) == Low(Drop(lo + Scale(hi, 64), off), bits)
  {
    hide And, Or, Low, Drop, Scale, Shl, Pow2;
    Pow2Values();
    match line {
      case InLo(shift, mask) =>
        AndMask(Drop(lo, off), bits);
        FieldAbove(lo, hi, off, bits, 64);
      case Across(a, b, mask) =>
        AndMask(Or(Drop(lo, off), Shl(hi, b)), bits);
        Straddle(lo, hi, off, bits);
      case InHi(shift, mask) =>
        AndMask(Drop(hi, shift), bits);
        Join(lo, hi, 64);
        DropDrop(lo + Scale(hi, 64), 64, shift);
      case Top(shift) =>
        ScaleZero(64);
        DropBound(lo, 8 * c, off);
        LowSmall(Drop(lo, off), bits);
    }
  }

  lemma Straddle(lo: u64, hi: u64, off: nat, bits: nat)
    requires off < 64 && bits <= 64
    ensures Low(Or(Drop(lo, off), Shl(hi, 64 - off)), bits) == Low(Drop(lo + Scale(hi, 64), off), bits)
  {
    hide Or, Low, Drop, Scale, Shl, Pow2;
    var k := 64 - off;
    ShlIs(hi, k, off);
    Pow2Values();
    DropBound(lo, 64, off);
    OrDisjoint(Drop(lo, off), Low(hi, off), k);
    DropAbove(lo, hi, off, 64);
    Split(hi, off);
    ScaleAdd(Low(hi, off), Scale(Drop(hi, off), off), k);
    ScaleScale(Drop(hi, off), off, k);
    LowAbove(Drop(lo, off) + Scale(Low(hi, off), k), Drop(hi, off), bits, 64);
  }

  /** Shifting left by k keeps the low 64 - k bits. */
  lemma ShlIs(a: u64, k: nat, off: nat)
    requires k + off == 64
    ensures Shl(a, k) == Scale(Low(a, off), k)
  {
    hide Low, Scale;
    LowScale(a, k, off);
  }
}
