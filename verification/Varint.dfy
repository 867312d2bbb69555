/** LEB128 varints (internal/codec/varint.go): the posting tails and their exact inverse. */
module Varint {
  import opened Bits

  /** The LEB128 bytes of x: seven bits a byte, least significant first, high bit = more follow. */
  function Encode(x: nat): (bs: seq<byte>)
    ensures |bs| > 0
  {
    if x < 128 then [x] else [x % 128 + 128] + Encode(x / 128)
  }

  /** A byte without the continuation bit lies at or after offset. */
  ghost predicate Terminated(data: seq<byte>, offset: nat) {
    exists k :: offset <= k < |data| && data[k] < 128
  }

  /** The number spelt by the seven-bit groups from offset, before any truncation. */
  ghost function Value(data: seq<byte>, offset: nat): nat
    requires Terminated(data, offset)
    decreases |data| - offset
  {
    if data[offset] < 128 then data[offset] else data[offset] % 128 + 128 * Value(data, offset + 1)
  }

  ghost function Length(data: seq<byte>, offset: nat): (n: nat)
    requires Terminated(data, offset)
    ensures 0 < n <= |data| - offset
    decreases |data| - offset
  {
    if data[offset] < 128 then 1 else 1 + Length(data, offset + 1)
  }

  method AppendVarint(buf: seq<byte>, v: u64) returns (out: seq<byte>)
    ensures out == buf + Encode(v)
  {
    out := buf;
    var x: u64 := v;
    while x >= 0x80
      invariant out + Encode(x) == buf + Encode(v)
    {
      GroupOf(x);
      assert out + Encode(x) == out + [x % 128 + 128] + Encode(x / 128);
      out := out + [Or(x % 256, 0x80)];
      x := Drop(x, 7);
    }
    out := out + [x % 256];
  }

  method ReadVarint(data: seq<byte>, offset: nat) returns (value: u64, bytesRead: nat)
    requires Terminated(data, offset)
    ensures value == Low(Value(data, offset), 64)
    ensures bytesRead == Length(data, offset)
  {
    hide *;
    NothingRead(Value(data, offset));
    var x: u64, shift: nat := 0, 0;
    bytesRead := 0;
    ghost var p: nat := 0;
    LowSmall(0, 64);
    while true
      invariant Terminated(data, offset + bytesRead)
      invariant p < Pow2(shift) && x == Low(p, 64)
      invariant Value(data, offset) == p + Scale(Value(data, offset + bytesRead), shift)
      invariant Length(data, offset) == bytesRead + Length(data, offset + bytesRead)
      decreases |data| - offset - bytesRead
    {
      var b := data[offset + bytesRead];
      ghost var next := offset + bytesRead + 1;
      ValueStep(data, offset + bytesRead);
      ghost var rest := if b < 128 then 0 else Value(data, next);
      assert Value(data, offset + bytesRead) == b % 128 + 128 * rest;
      x, p := OrGroup(x, p, b, shift, rest);
      bytesRead := bytesRead + 1;
      assert offset + bytesRead == next;
      GroupBits(b);
      if And(b, 0x80) == 0 {
        break;
      }
      shift := shift + 7;
    }
    value := x;
  }

  lemma NothingRead(v: nat)
    ensures Scale(v, 0) == v && Pow2(0) == 1
  {
  }

  /** x |= uint64(b&0x7F) << shift, where p is what x would be without truncation. */
  method OrGroup(x: u64, ghost p: nat, b: byte, shift: nat, ghost rest: nat) returns (x': u64, ghost p': nat)
    requires p < Pow2(shift) && x == Low(p, 64)
    ensures p' < Pow2(shift + 7) && x' == Low(p', 64)
    ensures p + Scale(b % 128 + 128 * rest, shift) == p' + Scale(rest, shift + 7)
    ensures rest == 0 ==> p + Scale(b % 128 + 128 * rest, shift) == p'
  {
    GroupBits(b);
    p' := TakeGroup(p, b % 128, shift, rest);
    x' := Or(x, Shl(And(b, 0x7F), shift));
  }

  lemma ValueStep(data: seq<byte>, o: nat)
    requires Terminated(data, o)
    ensures var b := data[o];
            if b < 128 then Value(data, o) == b == b % 128 && Length(data, o) == 1
            else Terminated(data, o + 1) && Value(data, o) == b % 128 + 128 * Value(data, o + 1)
                 && Length(data, o) == 1 + Length(data, o + 1)
  {
  }

  lemma SevenSteps(a: nat)
    ensures Scale(a, 7) == 128 * a && Drop(a, 7) == a / 128 && Low(a, 7) == a % 128
  {
    hide Drop, Low, Scale;
    ByteSteps(2 * a);
    ByteSteps(a);
    OneStep(a, 7);
  }

  lemma OneStep(a: nat, k: nat)
    ensures var more := k + 1;
            Drop(2 * a, more) == Drop(a, k) && Low(2 * a, more) == 2 * Low(a, k) && Scale(a, more) == 2 * Scale(a, k)
  {
  }

  /** byte(x) | 0x80 is the low group with the continuation bit set, and x >> 7 is the rest. */
  lemma GroupOf(x: nat)
    ensures Or(x % 256, 0x80) == x % 128 + 128 && Drop(x, 7) == x / 128
  {
    SevenSteps(x);
    LowByte(x);
    SetTopBit(x % 256);
  }

  lemma LowByte(x: nat)
    ensures x % 256 % 128 == x % 128
  {
    assert x == 128 * (2 * (x / 256)) + x % 256;
  }

  lemma SetTopBit(b: byte)
    ensures Or(b, 0x80) == b % 128 + 128
  {
    Pow2Values();
    hide Or;
    if b < 128 {
      SevenSteps(1);
      OrDisjoint(b, 1, 7);
    } else {
      OrAbsorb(b - 128, 7);
    }
  }

  /** Setting a bit that is already set changes nothing. */
  lemma {:induction false} OrAbsorb(a: nat, k: nat)
    requires a < Pow2(k)
    ensures Or(a + Pow2(k), Pow2(k)) == a + Pow2(k)
  {
    if k > 0 {
      OrAbsorb(a / 2, k - 1);
      assert (a + Pow2(k)) / 2 == a / 2 + Pow2(k - 1) && (a + Pow2(k)) % 2 == a % 2;
    }
  }

  /** b & 0x7F is the group and b & 0x80 tests the continuation bit. */
  lemma GroupBits(b: byte)
    ensures And(b, 0x7F) == b % 128
    ensures And(b, 0x80) == 0 <==> b < 128
  {
    hide And, Low, Drop, Pow2, Scale;
    Pow2Values();
    AndMask(b, 7);
    AndBit(b, 7);
    SevenSteps(b);
  }

  /** One step of the read loop: the group lands above the bits read so far, or past bit 63. */
  lemma TakeGroup(p: nat, g: nat, shift: nat, rest: nat) returns (p': nat)
    requires p < Pow2(shift) && g < 128
    ensures Or(Low(p, 64), Shl(g, shift)) == Low(p', 64)
    ensures Low(p', 64) < U64 && p' < Pow2(shift + 7)
    ensures p + Scale(g + 128 * rest, shift) == p' + Scale(rest, shift + 7)
    ensures rest == 0 ==> p + Scale(g + 128 * rest, shift) == p'
  {
    p' := p + Scale(g, shift);
    assert p' < Pow2(shift + 7) by {
      Pow2Values();
      ScaleBound(g, p, 7, shift);
      assert 7 + shift == shift + 7;
    }
    assert p + Scale(g + 128 * rest, shift) == p' + Scale(rest, shift + 7) by {
      SevenSteps(rest);
      ScaleAdd(g, 128 * rest, shift);
      ScaleScale(rest, 7, shift);
      assert 7 + shift == shift + 7;
    }
    if rest == 0 { ScaleZero(shift + 7); }
    assert Low(p', 64) < U64 by { Split(p', 64); Pow2Values(); }
    if shift < 64 { TakeLowGroup(p, g, shift); } else { TakeHighGroup(p, g, shift); }
  }

  lemma TakeLowGroup(p: nat, g: nat, shift: nat)
    requires p < Pow2(shift) && shift < 64
    ensures Or(Low(p, 64), Shl(g, shift)) == Low(p + Scale(g, shift), 64)
  {
    Pow2Mono(shift, 64);
    LowSmall(p, 64);
    LowScale(g, shift, 64 - shift);
    OrDisjoint(p, Low(g, 64 - shift), shift);
    LowSum(p, g, shift, 64 - shift);
  }

  lemma TakeHighGroup(p: nat, g: nat, shift: nat)
    requires 64 <= shift
    ensures Or(Low(p, 64), Shl(g, shift)) == Low(p + Scale(g, shift), 64)
  {
    LowAbove(p, g, 64, shift);
    LowAbove(0, g, 64, shift);
    LowSmall(0, 64);
    OrZero(Low(p, 64));
  }

  lemma LowSum(p: nat, g: nat, s: nat, w: nat)
    requires p < Pow2(s)
    ensures Low(p + Scale(g, s), s + w) == p + Scale(Low(g, w), s)
  {
    Join(p, g, s);
    LowSplit(p + Scale(g, s), s, w);
  }

  /** Reading what AppendVarint wrote gives the number back, whatever surrounds it. */
  lemma {:induction false} RoundTrip(pre: seq<byte>, v: nat, post: seq<byte>)
    ensures var data := pre + Encode(v) + post;
            Terminated(data, |pre|) && Value(data, |pre|) == v && Length(data, |pre|) == |Encode(v)|
    decreases v
  {
    var data := pre + Encode(v) + post;
    assert data[|pre|] == Encode(v)[0];
    if v < 128 {
      assert data[|pre|] < 128;
    } else {
      var pre' := pre + [v % 128 + 128];
      RoundTrip(pre', v / 128, post);
      assert pre' + Encode(v / 128) + post == data;
    }
  }

  /** All bytes but the last have the high bit, and byte k carries the digit k of the number to base 128. */
  lemma {:induction false} EncodeIs(x: nat, k: nat)
    ensures Encode(x)[|Encode(x)| - 1] < 128
    ensures k < |Encode(x)| ==> Encode(x)[k] % 128 == Digit(x, k) && (k < |Encode(x)| - 1 ==> Encode(x)[k] >= 128)
    ensures k >= |Encode(x)| ==> Digit(x, k) == 0
  {
    if x >= 128 {
      EncodeIs(x / 128, if k == 0 then 0 else k - 1);
    } else if k > 0 {
      NoDigits(k - 1);
    }
  }

  function Digit(x: nat, k: nat): nat {
    if k == 0 then x % 128 else Digit(x / 128, k - 1)
  }

  lemma {:induction false} NoDigits(k: nat)
    ensures Digit(0, k) == 0
  {
    if k > 0 { NoDigits(k - 1); }
  }
}
