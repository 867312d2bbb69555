/**
 Bytes and the unsigned 64-bit operations the codec uses.

 Machine words are naturals below 2^64. Shifting is repeated doubling and
 halving, and a left shift keeps the low 64 bits only, so a bit that a shift
 pushes out of the word is lost here exactly as it is in the code.
 */
module Bits {
  type byte = x: int | 0 <= x < 256
  type u32 = x: int | 0 <= x < 0x1_0000_0000
  type u64 = x: int | 0 <= x < 0x1_0000_0000_0000_0000

  /** A Go string: its bytes. */
  type gostring = seq<byte>

  const U64: nat := 0x1_0000_0000_0000_0000

  function Pow2(n: nat): (p: nat)
    ensures p > 0
  {
    if n == 0 then 1 else 2 * Pow2(n - 1)
  }

  /** a with s zero bits put below it. */
  function Scale(a: nat, s: nat): nat {
    if s == 0 then a else 2 * Scale(a, s - 1)
  }

  /** a without its s low bits. */
  function Drop(a: nat, s: nat): nat {
    if s == 0 then a else Drop(a / 2, s - 1)
  }

  /** The s low bits of a. */
  function Low(a: nat, s: nat): nat {
    if s == 0 then 0 else a % 2 + 2 * Low(a / 2, s - 1)
  }

  function Or(a: nat, b: nat): nat {
    if a == 0 && b == 0 then 0
    else 2 * Or(a / 2, b / 2) + (if a % 2 == 1 || b % 2 == 1 then 1 else 0)
  }

  function And(a: nat, b: nat): nat {
    if a == 0 || b == 0 then 0
    else 2 * And(a / 2, b / 2) + (if a % 2 == 1 && b % 2 == 1 then 1 else 0)
  }

  /** The machine's shift to the left: 64 bits remain. */
  function Shl(a: nat, s: nat): nat { Low(Scale(a, s), 64) }

  /** The value of a little-endian byte string. */
  function LE(bs: seq<byte>): nat {
    if bs == [] then 0 else bs[0] + 256 * LE(bs[1..])
  }

  /** The n low-order bytes of v, least significant first. */
  function ToLE(v: nat, n: nat): (bs: seq<byte>)
    ensures |bs| == n
  {
    if n == 0 then [] else [v % 256] + ToLE(v / 256, n - 1)
  }

  // ----- powers of two

  lemma {:induction false} Pow2Mono(m: nat, n: nat)
    requires m <= n
    ensures Pow2(m) <= Pow2(n)
  {
    if m < n { Pow2Mono(m, n - 1); }
  }

  lemma Pow2Values()
    ensures Pow2(7) == 128 && Pow2(8) == 256 && Pow2(16) == 0x1_0000 && Pow2(32) == 0x1_0000_0000 && Pow2(64) == U64
  {
    Pow2Four(0); Pow2Four(4); Pow2Four(8); Pow2Four(12); Pow2Four(16); Pow2Four(20); Pow2Four(24); Pow2Four(28);
    Pow2Four(32); Pow2Four(36); Pow2Four(40); Pow2Four(44); Pow2Four(48); Pow2Four(52); Pow2Four(56); Pow2Four(60);
    assert Pow2(8) == 2 * Pow2(7);
  }

  lemma Pow2Four(n: nat)
    ensures Pow2(n + 4) == 16 * Pow2(n)
  {
    assert Pow2(n + 2) == 4 * Pow2(n);
  }

  // ----- scaling, dropping and keeping bits

  lemma {:induction false} ScaleAdd(a: nat, b: nat, s: nat)
    ensures Scale(a + b, s) == Scale(a, s) + Scale(b, s)
  {
    if s > 0 { ScaleAdd(a, b, s - 1); }
  }

  lemma {:induction false} ScaleScale(a: nat, m: nat, n: nat)
    ensures Scale(Scale(a, m), n) == Scale(a, m + n)
  {
    if n > 0 { ScaleScale(a, m, n - 1); }
  }

  lemma {:induction false} ScaleZero(s: nat)
    ensures Scale(0, s) == 0
  {
    if s > 0 { ScaleZero(s - 1); }
  }

  /** A k-bit field over s lower bits occupies k + s bits. */
  lemma {:induction false} ScaleBound(a: nat, b: nat, k: nat, s: nat)
    requires a < Pow2(k) && b < Pow2(s)
    ensures b + Scale(a, s) < Pow2(k + s)
    decreases s
  {
    if s > 0 { ScaleBound(a, b / 2, k, s - 1); }
  }

  lemma {:induction false} Split(a: nat, s: nat)
    ensures a == Low(a, s) + Scale(Drop(a, s), s) && Low(a, s) < Pow2(s)
  {
    if s > 0 { Split(a / 2, s - 1); }
  }

  lemma {:induction false} Join(b: nat, a: nat, s: nat)
    requires b < Pow2(s)
    ensures Drop(b + Scale(a, s), s) == a && Low(b + Scale(a, s), s) == b
  {
    if s > 0 {
      Join(b / 2, a, s - 1);
      assert (b + Scale(a, s)) / 2 == b / 2 + Scale(a, s - 1);
    }
  }

  /** A number of at most s bits is its own low part. */
  lemma LowSmall(a: nat, s: nat)
    requires a < Pow2(s)
    ensures Low(a, s) == a && Drop(a, s) == 0
  {
    ScaleZero(s);
    Join(a, 0, s);
  }

  lemma {:induction false} DropDrop(a: nat, m: nat, n: nat)
    ensures Drop(a, m + n) == Drop(Drop(a, m), n)
  {
    if m > 0 { DropDrop(a / 2, m - 1, n); }
  }

  lemma {:induction false} DropBound(a: nat, k: nat, s: nat)
    requires a < Pow2(k) && s <= k
    ensures Drop(a, s) < Pow2(k - s)
  {
    if s > 0 { DropBound(a / 2, k - 1, s - 1); }
  }

  lemma {:induction false} DropLess(a: nat, s: nat)
    ensures Drop(a, s) <= a
  {
    if s > 0 { DropLess(a / 2, s - 1); }
  }

  /** What lies at bit n and above moves down when bits below it are dropped. */
  lemma {:induction false} DropAbove(a: nat, h: nat, m: nat, n: nat)
    requires m <= n
    ensures Drop(a + Scale(h, n), m) == Drop(a, m) + Scale(h, n - m)
  {
    if m > 0 {
      assert (a + Scale(h, n)) / 2 == a / 2 + Scale(h, n - 1);
      DropAbove(a / 2, h, m - 1, n - 1);
    }
  }

  /** What lies at bit n and above does not reach the w low bits. */
  lemma {:induction false} LowAbove(a: nat, h: nat, w: nat, n: nat)
    requires w <= n
    ensures Low(a + Scale(h, n), w) == Low(a, w)
  {
    if w > 0 {
      assert (a + Scale(h, n)) / 2 == a / 2 + Scale(h, n - 1) && (a + Scale(h, n)) % 2 == a % 2;
      LowAbove(a / 2, h, w - 1, n - 1);
    }
  }

  /** Bits at and above position m + w do not reach the field of width w at m. */
  lemma FieldAbove(a: nat, h: nat, m: nat, w: nat, n: nat)
    requires m + w <= n
    ensures Low(Drop(a + Scale(h, n), m), w) == Low(Drop(a, m), w)
  {
    DropAbove(a, h, m, n);
    LowAbove(Drop(a, m), h, w, n - m);
  }

  lemma {:induction false} LowScale(a: nat, s: nat, w: nat)
    ensures Low(Scale(a, s), s + w) == Scale(Low(a, w), s)
  {
    if s > 0 {
      assert Scale(a, s) / 2 == Scale(a, s - 1) && Scale(a, s) % 2 == 0;
      LowScale(a, s - 1, w);
    }
  }

  // ----- bitwise operations on disjoint fields

  lemma {:induction false} OrZero(a: nat)
    ensures Or(a, 0) == a && Or(0, a) == a
  {
    if a > 0 { OrZero(a / 2); }
  }

  /** Or-ing a field into the bits above position k is addition. */
  lemma {:induction false} OrDisjoint(a: nat, m: nat, k: nat)
    requires a < Pow2(k)
    ensures Or(a, Scale(m, k)) == a + Scale(m, k)
  {
    if k == 0 {
      OrZero(m);
    } else {
      OrDisjoint(a / 2, m, k - 1);
      assert Scale(m, k) / 2 == Scale(m, k - 1) && Scale(m, k) % 2 == 0;
    }
  }

  /** Masking with 2^k - 1 keeps the k low bits. */
  lemma {:induction false} AndMask(a: nat, k: nat)
    ensures And(a, Pow2(k) - 1) == Low(a, k)
  {
    if k == 0 {
    } else if a == 0 {
      LowSmall(0, k);
    } else {
      AndMask(a / 2, k - 1);
      var d := Pow2(k - 1);
      assert (2 * d - 1) / 2 == d - 1 && (2 * d - 1) % 2 == 1;
    }
  }

  /** Testing bit k. */
  lemma {:induction false} AndBit(a: nat, k: nat)
    ensures And(a, Pow2(k)) == if Drop(a, k) % 2 == 1 then Pow2(k) else 0
  {
    if k == 0 {
      AndZero(a / 2);
    } else {
      AndBit(a / 2, k - 1);
      if a == 0 { LowSmall(0, k); }
    }
  }

  lemma AndZero(a: nat)
    ensures And(a, 0) == 0
  {
  }

  /** Or-ing a field of the given width in above the filled bits of a word with room for it loses nothing. */
  lemma OrIn(buf: nat, v: nat, filled: nat, width: nat)
    requires buf < Pow2(filled) && v < Pow2(width) && filled + width <= 64
    ensures Or(buf, Shl(v, filled)) == buf + Scale(v, filled) < Pow2(filled + width)
    ensures buf + Scale(v, filled) < U64
  {
    ScaleBound(v, buf, width, filled);
    Pow2Mono(filled + width, 64);
    Pow2Values();
    LowSmall(Scale(v, filled), 64);
    OrDisjoint(buf, v, filled);
  }

  // ----- slices

  lemma SliceOfSlice(data: seq<byte>, from: nat, to: nat, a: nat, b: nat)
    requires from <= to <= |data| && a <= b <= to - from
    ensures data[from..to][a..b] == data[from + a..from + b]
  {
    var x, y := data[from..to][a..b], data[from + a..from + b];
    assert |x| == |y| == b - a;
    forall k | 0 <= k < b - a ensures x[k] == y[k] {
      assert x[k] == data[from..to][a + k] == data[from + (a + k)];
    }
  }

  lemma SliceOfTail(data: seq<byte>, from: nat, a: nat, b: nat)
    requires from + b <= |data| && a <= b
    ensures data[from..][a..b] == data[from + a..from + b]
  {
    assert data[from..] == data[from..|data|];
    SliceOfSlice(data, from, |data|, a, b);
  }

  lemma TailOfTail(data: seq<byte>, from: nat, a: nat)
    requires from + a <= |data|
    ensures data[from..][a..] == data[from + a..]
  {
    var x, y := data[from..][a..], data[from + a..];
    assert |x| == |y|;
    forall k | 0 <= k < |x| ensures x[k] == y[k] {
      assert x[k] == data[from..][a + k] == data[from + (a + k)];
    }
  }

  // ----- little-endian byte strings

  lemma ByteSteps(a: nat)
    ensures Scale(a, 8) == 256 * a && Drop(a, 8) == a / 256 && Low(a, 8) == a % 256
  {
    ScaleTwo(a, 0);
    ScaleTwo(a, 2);
    ScaleTwo(a, 4);
    ScaleTwo(a, 6);
    DropFour(a, 4);
    DropFour(a / 16, 0);
    LowFour(a, 4);
    LowFour(a / 16, 0);
  }

  lemma ScaleTwo(a: nat, s: nat)
    ensures Scale(a, s + 2) == 4 * Scale(a, s)
  {
  }

  lemma DropTwo(a: nat, s: nat)
    ensures Drop(a, s + 2) == Drop(a / 4, s)
    ensures Low(a, s + 2) == a % 4 + 4 * Low(a / 4, s)
  {
    assert a / 2 / 2 == a / 4;
    assert Low(a, s + 2) == a % 2 + 2 * Low(a / 2, s + 1);
    assert Low(a / 2, s + 1) == a / 2 % 2 + 2 * Low(a / 2 / 2, s);
  }

  lemma DropFour(a: nat, s: nat)
    ensures Drop(a, s + 4) == Drop(a / 16, s)
  {
    DropTwo(a, s + 2);
    DropTwo(a / 4, s);
    assert a / 4 / 4 == a / 16;
  }

  lemma LowFour(a: nat, s: nat)
    ensures Low(a, s + 4) == a % 16 + 16 * Low(a / 16, s)
  {
    DropTwo(a, s + 2);
    DropTwo(a / 4, s);
    assert a / 4 / 4 == a / 16;
  }

  lemma {:induction false} LEAppend(a: seq<byte>, b: seq<byte>)
    ensures LE(a + b) == LE(a) + Scale(LE(b), 8 * |a|)
  {
    if a == [] {
      assert a + b == b;
    } else {
      assert (a + b)[1..] == a[1..] + b;
      LEAppend(a[1..], b);
      ByteSteps(Scale(LE(b), 8 * (|a| - 1)));
      ScaleScale(LE(b), 8 * (|a| - 1), 8);
    }
  }

  lemma LEOne(b: byte)
    ensures LE([b]) == b
  {
    assert [b][1..] == [];
  }

  lemma {:induction false} LEBound(a: seq<byte>)
    ensures LE(a) < Pow2(8 * |a|)
  {
    if a != [] {
      LEBound(a[1..]);
      ByteBelow(a[0], LE(a[1..]), |a| - 1);
    }
  }

  lemma ByteBelow(b: byte, v: nat, n: nat)
    requires v < Pow2(8 * n)
    ensures b + 256 * v < Pow2(8 * (n + 1))
  {
    hide Pow2, Scale;
    Pow2Values();
    ByteSteps(v);
    ScaleBound(v, b, 8 * n, 8);
  }

  lemma {:induction false} LEToLE(v: nat, n: nat)
    ensures LE(ToLE(v, n)) == Low(v, 8 * n)
  {
    if n > 0 {
      LEToLE(v / 256, n - 1);
      assert ToLE(v, n)[1..] == ToLE(v / 256, n - 1);
      ByteSteps(v);
      LowSplit(v, 8, 8 * (n - 1));
      ByteSteps(Low(v / 256, 8 * (n - 1)));
    }
  }

  lemma {:induction false} LowSplit(a: nat, m: nat, n: nat)
    ensures Low(a, m + n) == Low(a, m) + Scale(Low(Drop(a, m), n), m)
  {
    if m > 0 { LowSplit(a / 2, m - 1, n); }
  }

  lemma {:induction false} LEUnique(bs: seq<byte>)
    ensures ToLE(LE(bs), |bs|) == bs
  {
    if bs != [] {
      LEUnique(bs[1..]);
      var r := LE(bs[1..]);
      var v := bs[0] + 256 * r;
      OneByteUp(bs[0], r);
      assert LE(bs) == v && ToLE(v, |bs|) == [v % 256] + ToLE(v / 256, |bs| - 1);
      assert bs == [bs[0]] + bs[1..];
    }
  }

  lemma OneByteUp(b: byte, r: nat)
    ensures (b + 256 * r) % 256 == b && (b + 256 * r) / 256 == r
  {
  }

  /** A number that fits its little-endian field reads back. */
  lemma FieldBack(v: nat, n: nat)
    requires (n == 1 && v < 0x100) || (n == 2 && v < 0x1_0000) || (n == 4 && v < 0x1_0000_0000) || (n == 8 && v < U64)
    ensures LE(ToLE(v, n)) == v
  {
    Pow2Values();
    LEToLE(v, n);
    LowSmall(v, 8 * n);
  }
}
