/**
 Skip lists as bytes: RawSkipBytes (internal/index/inverted.go) and
 LoadSkipFromBytes (internal/index/skiplist.go).
 */
module SkipBytes {
  import opened Options
  import opened Bits
  import opened Skips = SkipList

  /** math.Float32bits and math.Float32frombits. */
  datatype Float32 = Float32(bits: real -> u32, unbits: u32 -> real)

  /** One L0 entry: last document, byte offset, delta base, impact. */
  ghost function EntryBytes(sl: SkipList, f: Float32, i: nat): (bs: seq<byte>)
    requires Shaped(sl) && i < |sl.l0DocIDs|
    ensures |bs| == 28
  {
    ToLE(sl.l0DocIDs[i], 8) + ToLE(sl.l0Offsets[i], 8) + ToLE(sl.l0Bases[i], 8) + ToLE(f.bits(sl.l0Impact[i]), 4)
  }

  ghost function L0Bytes(sl: SkipList, f: Float32, n: nat): (bs: seq<byte>)
    requires Shaped(sl) && n <= |sl.l0DocIDs|
    ensures |bs| == 28 * n
  {
    if n == 0 then [] else L0Bytes(sl, f, n - 1) + EntryBytes(sl, f, n - 1)
  }

  ghost function L1Bytes(sl: SkipList, n: nat): (bs: seq<byte>)
    requires Shaped(sl) && n <= |sl.l1DocIDs|
    ensures |bs| == 16 * n
  {
    if n == 0 then [] else L1Bytes(sl, n - 1) + (ToLE(sl.l1DocIDs[n - 1], 8) + ToLE(sl.l1L0Idx[n - 1], 8))
  }

  ghost function Header(sl: SkipList): (bs: seq<byte>)
    ensures |bs| == 8
  {
    ToLE(|sl.l0DocIDs|, 4) + ToLE(|sl.l1DocIDs|, 4)
  }

  ghost function Bytes(sl: SkipList, f: Float32): seq<byte>
    requires Shaped(sl)
  {
    Header(sl) + L0Bytes(sl, f, |sl.l0DocIDs|) + L1Bytes(sl, |sl.l1DocIDs|)
  }

  /** Every number fits its field and every impact is a 32-bit float. */
  ghost predicate Fits(sl: SkipList, f: Float32)
    requires Shaped(sl)
  {
    && |sl.l0DocIDs| < 0x1_0000_0000
    && forall i :: 0 <= i < |sl.l0DocIDs| ==>
         sl.l0DocIDs[i] < U64 && sl.l0Offsets[i] < U64 && sl.l0Bases[i] < U64
         && f.unbits(f.bits(sl.l0Impact[i])) == sl.l0Impact[i]
  }

  /** Write v at off, little-endian, n bytes. */
  method Put(buf: array<byte>, off: nat, v: nat, n: nat) returns (off': nat)
    requires off + n <= buf.Length
    modifies buf
    ensures off' == off + n && buf[..off'] == old(buf[..off]) + ToLE(v, n)
  {
    var x := v;
    for i := 0 to n
      invariant buf[..off] == old(buf[..off])
      invariant buf[off..off + i] + ToLE(x, n - i) == ToLE(v, n)
    {
      assert ToLE(x, n - i) == [x % 256] + ToLE(x / 256, n - i - 1);
      buf[off + i] := x % 256;
      assert buf[off..off + i + 1] == buf[off..off + i] + [x % 256];
      x := x / 256;
    }
    off' := off + n;
    assert buf[..off'] == buf[..off] + buf[off..off'];
  }

  method RawSkipBytes(sl: SkipList, f: Float32) returns (out: seq<byte>)
    requires Shaped(sl)
    ensures out == Bytes(sl, f)
  {
    hide Shaped, ToLE;
    Sizes(sl);
    var nL0, nL1 := |sl.l0DocIDs|, |sl.l1DocIDs|;
    var buf := new byte[8 + nL0 * 28 + nL1 * 16](_ => 0);
    var off := Put(buf, 0, nL0, 4);
    off := Put(buf, off, nL1, 4);
    off := PutL0(buf, off, sl, f);
    off := PutL1(buf, off, sl);
    out := buf[..];
    assert out == buf[..off];
  }

  method PutL0(buf: array<byte>, off0: nat, sl: SkipList, f: Float32) returns (off: nat)
    requires Shaped(sl) && off0 + 28 * |sl.l0DocIDs| <= buf.Length
    modifies buf
    ensures off == off0 + 28 * |sl.l0DocIDs| && buf[..off] == old(buf[..off0]) + L0Bytes(sl, f, |sl.l0DocIDs|)
  {
    hide Shaped, EntryBytes;
    off := off0;
    for i := 0 to |sl.l0DocIDs|
      invariant off == off0 + 28 * i && buf[..off] == old(buf[..off0]) + L0Bytes(sl, f, i)
    {
      assert L0Bytes(sl, f, i + 1) == L0Bytes(sl, f, i) + EntryBytes(sl, f, i);
      off := PutEntry(buf, off, sl, f, i);
    }
  }

  method PutEntry(buf: array<byte>, off0: nat, sl: SkipList, f: Float32, i: nat) returns (off: nat)
    requires Shaped(sl) && i < |sl.l0DocIDs| && off0 + 28 <= buf.Length
    modifies buf
    ensures off == off0 + 28 && buf[..off] == old(buf[..off0]) + EntryBytes(sl, f, i)
  {
    hide Shaped, ToLE;
    Sizes(sl);
    off := Put(buf, off0, sl.l0DocIDs[i], 8);
    off := Put(buf, off, sl.l0Offsets[i], 8);
    off := Put(buf, off, sl.l0Bases[i], 8);
    off := Put(buf, off, f.bits(sl.l0Impact[i]), 4);
  }

  method PutL1(buf: array<byte>, off0: nat, sl: SkipList) returns (off: nat)
    requires Shaped(sl) && off0 + 16 * |sl.l1DocIDs| <= buf.Length
    modifies buf
    ensures off == off0 + 16 * |sl.l1DocIDs| && buf[..off] == old(buf[..off0]) + L1Bytes(sl, |sl.l1DocIDs|)
  {
    hide Shaped, ToLE;
    Sizes(sl);
    off := off0;
    for i := 0 to |sl.l1DocIDs|
      invariant off == off0 + 16 * i && buf[..off] == old(buf[..off0]) + L1Bytes(sl, i)
    {
      assert L1Bytes(sl, i + 1) == L1Bytes(sl, i) + (ToLE(sl.l1DocIDs[i], 8) + ToLE(sl.l1L0Idx[i], 8));
      off := Put(buf, off, sl.l1DocIDs[i], 8);
      off := Put(buf, off, sl.l1L0Idx[i], 8);
    }
  }

  lemma Sizes(sl: SkipList)
    requires Shaped(sl)
    ensures |sl.l0DocIDs| == |sl.l0Offsets| == |sl.l0Bases| == |sl.l0Impact| && |sl.l1DocIDs| == |sl.l1L0Idx|
  {
  }

  /** The number of L0 entries the bytes announce, 0 when there is no header. */
  function Announced(data: seq<byte>): nat {
    if |data| < 8 then 0 else LE(data[0..4])
  }

  /** The L0 columns are what the entries say; L1 is rebuilt. */
  method LoadSkipFromBytes(data: seq<byte>, f: Float32) returns (sl: Option<SkipList>)
    ensures sl.Some? <==> 0 < Announced(data) && 8 + 28 * Announced(data) <= |data|
    ensures sl.Some? ==>
              && Shaped(sl.value) && |sl.value.l0DocIDs| == Announced(data)
              && forall i :: 0 <= i < Announced(data) ==> ReadsAs(data, f, i, sl.value)
  {
    if |data| < 8 {
      return None;
    }
    var nL0 := LE(data[0..4]);
    if nL0 == 0 {
      return None;
    }
    if |data| < 8 + nL0 * 28 {
      return None;
    }
    var docs, offsets, bases, impacts := [], [], [], [];
    var off := 8;
    for i := 0 to nL0
      invariant off == 8 + 28 * i && |docs| == |offsets| == |bases| == |impacts| == i
      invariant forall j :: 0 <= j < i ==> Reads(data, f, j, docs, offsets, bases, impacts)
    {
      hide EntryReads;
      var doc, offset, base, impact := ReadEntry(data, f, i, off);
      forall j | 0 <= j < i
        ensures Reads(data, f, j, docs + [doc], offsets + [offset], bases + [base], impacts + [impact])
      {
        ReadsKept(data, f, j, docs, offsets, bases, impacts, doc, offset, base, impact);
      }
      docs, offsets, bases, impacts := docs + [doc], offsets + [offset], bases + [base], impacts + [impact];
      off := off + 28;
    }
    var built := BuildSkipList(docs, offsets, bases, impacts);
    sl := Some(built);
  }

  method ReadEntry(data: seq<byte>, f: Float32, i: nat, off0: nat) returns (doc: nat, offset: nat, base: nat, impact: real)
    requires off0 == 8 + 28 * i && off0 + 28 <= |data|
    ensures EntryReads(data, f, i, doc, offset, base, impact)
  {
    hide LE;
    var off := off0;
    doc := LE(data[off..off + 8]);
    off := off + 8;
    offset := LE(data[off..off + 8]);
    off := off + 8;
    base := LE(data[off..off + 8]);
    off := off + 8;
    LEBound(data[off..off + 4]);
    Pow2Values();
    impact := f.unbits(LE(data[off..off + 4]));
  }

  lemma ReadsKept(data: seq<byte>, f: Float32, j: nat, docs: seq<nat>, offsets: seq<nat>, bases: seq<nat>, impacts: seq<real>,
                  doc: nat, offset: nat, base: nat, impact: real)
    requires Reads(data, f, j, docs, offsets, bases, impacts)
    ensures Reads(data, f, j, docs + [doc], offsets + [offset], bases + [base], impacts + [impact])
  {
    hide EntryReads;
  }

  /** The fields of entry i. */
  ghost predicate EntryReads(data: seq<byte>, f: Float32, i: nat, doc: nat, offset: nat, base: nat, impact: real) {
    var at := 8 + 28 * i;
    && at + 28 <= |data|
    && doc == LE(data[at..at + 8]) && offset == LE(data[at + 8..at + 16]) && base == LE(data[at + 16..at + 24])
    && LE(data[at + 24..at + 28]) < 0x1_0000_0000 && impact == f.unbits(LE(data[at + 24..at + 28]))
  }

  ghost predicate Reads(data: seq<byte>, f: Float32, i: nat, docs: seq<nat>, offsets: seq<nat>, bases: seq<nat>, impacts: seq<real>) {
    i < |docs| && i < |offsets| && i < |bases| && i < |impacts| && EntryReads(data, f, i, docs[i], offsets[i], bases[i], impacts[i])
  }

  ghost predicate ReadsAs(data: seq<byte>, f: Float32, i: nat, sl: SkipList) {
    Reads(data, f, i, sl.l0DocIDs, sl.l0Offsets, sl.l0Bases, sl.l0Impact)
  }

  lemma {:induction false} L0Prefix(sl: SkipList, f: Float32, m: nat, n: nat)
    requires Shaped(sl) && m <= n <= |sl.l0DocIDs|
    ensures L0Bytes(sl, f, m) <= L0Bytes(sl, f, n)
  {
    hide Shaped, EntryBytes;
    if m < n { L0Prefix(sl, f, m, n - 1); }
  }

  /** Entry i lies at 8 + 28 * i. */
  lemma EntrySlice(sl: SkipList, f: Float32, i: nat)
    requires Shaped(sl) && i < |sl.l0DocIDs|
    ensures 8 + 28 * i + 28 <= |Bytes(sl, f)| && Bytes(sl, f)[8 + 28 * i..8 + 28 * i + 28] == EntryBytes(sl, f, i)
  {
    hide Shaped, EntryBytes;
    var next := i + 1;
    L0Prefix(sl, f, next, |sl.l0DocIDs|);
    var body := L0Bytes(sl, f, |sl.l0DocIDs|);
    assert body[..28 * next] == L0Bytes(sl, f, i) + EntryBytes(sl, f, i);
    assert body[28 * i..28 * next] == EntryBytes(sl, f, i);
  }

  lemma EntryReadsBack(sl: SkipList, f: Float32, i: nat)
    requires Shaped(sl) && Fits(sl, f) && i < |sl.l0DocIDs|
    ensures ReadsAs(Bytes(sl, f), f, i, sl)
  {
    hide Shaped, ToLE, LE, Bytes;
    Sizes(sl);
    EntrySlice(sl, f, i);
    var data, at := Bytes(sl, f), 8 + 28 * i;
    var e := EntryBytes(sl, f, i);
    FieldBack(sl.l0DocIDs[i], 8);
    FieldBack(sl.l0Offsets[i], 8);
    FieldBack(sl.l0Bases[i], 8);
    FieldBack(f.bits(sl.l0Impact[i]), 4);
    var w, x, y, z := ToLE(sl.l0DocIDs[i], 8), ToLE(sl.l0Offsets[i], 8), ToLE(sl.l0Bases[i], 8), ToLE(f.bits(sl.l0Impact[i]), 4);
    assert data[at..at + 28] == e == w + x + y + z;
    FourParts(data, at, w, x, y, z);
  }

  lemma FourParts(data: seq<byte>, at: nat, w: seq<byte>, x: seq<byte>, y: seq<byte>, z: seq<byte>)
    requires |w| == |x| == |y| == 8 && |z| == 4
    requires at + 28 <= |data| && data[at..at + 28] == w + x + y + z
    ensures data[at..at + 8] == w && data[at + 8..at + 16] == x && data[at + 16..at + 24] == y && data[at + 24..at + 28] == z
  {
    var e := data[at..at + 28];
    PartOf(data, at, e, 0, 8);
    PartOf(data, at, e, 8, 16);
    PartOf(data, at, e, 16, 24);
    PartOf(data, at, e, 24, 28);
    assert e[0..8] == w && e[8..16] == x && e[16..24] == y && e[24..28] == z;
  }

  lemma PartOf(data: seq<byte>, at: nat, e: seq<byte>, lo: nat, hi: nat)
    requires at + |e| <= |data| && e == data[at..at + |e|] && lo <= hi <= |e|
    ensures data[at + lo..at + hi] == e[lo..hi]
  {
    SliceOfSlice(data, at, at + |e|, lo, hi);
  }

  /** Loading the raw bytes of a skip list with entries gives it back, L1 included. */
  lemma SkipRoundTrip(sl: SkipList, f: Float32, loaded: SkipList)
    requires Shaped(sl) && Fits(sl, f) && |sl.l0DocIDs| > 0
    requires Shaped(loaded) && |loaded.l0DocIDs| == Announced(Bytes(sl, f))
    requires forall i :: 0 <= i < Announced(Bytes(sl, f)) ==> ReadsAs(Bytes(sl, f), f, i, loaded)
    ensures Announced(Bytes(sl, f)) == |sl.l0DocIDs| && 8 + 28 * Announced(Bytes(sl, f)) <= |Bytes(sl, f)|
    ensures loaded == sl
  {
    hide Shaped, LE, ToLE;
    HeaderBack(sl, f);
    Sizes(sl);
    Sizes(loaded);
    forall i | 0 <= i < |sl.l0DocIDs|
      ensures loaded.l0DocIDs[i] == sl.l0DocIDs[i] && loaded.l0Offsets[i] == sl.l0Offsets[i]
      ensures loaded.l0Bases[i] == sl.l0Bases[i] && loaded.l0Impact[i] == sl.l0Impact[i]
    {
      EntryReadsBack(sl, f, i);
      assert ReadsAs(Bytes(sl, f), f, i, loaded);
    }
    assert loaded.l0DocIDs == sl.l0DocIDs && loaded.l0Offsets == sl.l0Offsets && loaded.l0Bases == sl.l0Bases;
    SameShape(loaded, sl);
  }

  lemma HeaderBack(sl: SkipList, f: Float32)
    requires Shaped(sl) && |sl.l0DocIDs| < 0x1_0000_0000
    ensures Announced(Bytes(sl, f)) == |sl.l0DocIDs| && 8 + 28 * |sl.l0DocIDs| <= |Bytes(sl, f)|
  {
    hide Shaped, ToLE, LE;
    FieldBack(|sl.l0DocIDs|, 4);
    assert Bytes(sl, f)[0..4] == ToLE(|sl.l0DocIDs|, 4);
  }

  /** Writing a skip list and loading it again. */
  method Reload(sl: SkipList, f: Float32) returns (loaded: Option<SkipList>)
    requires Shaped(sl) && Fits(sl, f)
    ensures loaded == if |sl.l0DocIDs| > 0 then Some(sl) else None
  {
    hide Shaped, Bytes, Fits;
    var data := RawSkipBytes(sl, f);
    HeaderFits(sl, f);
    HeaderBack(sl, f);
    loaded := LoadSkipFromBytes(data, f);
    if loaded.Some? { SkipRoundTrip(sl, f, loaded.value); }
  }

  lemma HeaderFits(sl: SkipList, f: Float32)
    requires Shaped(sl) && Fits(sl, f)
    ensures |sl.l0DocIDs| < 0x1_0000_0000
  {
  }

  // ----- where the parts lie

  /** The header holds both sizes. */
  lemma HeaderLayout(sl: SkipList, f: Float32)
    requires Shaped(sl)
    ensures var bs := Bytes(sl, f);
            |bs| == 8 + 28 * |sl.l0DocIDs| + 16 * |sl.l1DocIDs| && bs[0..4] == ToLE(|sl.l0DocIDs|, 4) && bs[4..8] == ToLE(|sl.l1DocIDs|, 4)
  {
    hide ToLE, Shaped;
  }

  /** Entry i of L0: last document, offset, delta base and impact. */
  lemma L0Layout(sl: SkipList, f: Float32, i: nat)
    requires Shaped(sl) && i < |sl.l0DocIDs|
    ensures var bs, at := Bytes(sl, f), 8 + 28 * i;
            && at + 28 <= |bs| && bs[at..at + 8] == ToLE(sl.l0DocIDs[i], 8) && bs[at + 8..at + 16] == ToLE(sl.l0Offsets[i], 8)
            && bs[at + 16..at + 24] == ToLE(sl.l0Bases[i], 8) && bs[at + 24..at + 28] == ToLE(f.bits(sl.l0Impact[i]), 4)
  {
    hide ToLE, Shaped, Bytes;
    Sizes(sl);
    EntrySlice(sl, f, i);
    FourParts(Bytes(sl, f), 8 + 28 * i, ToLE(sl.l0DocIDs[i], 8), ToLE(sl.l0Offsets[i], 8), ToLE(sl.l0Bases[i], 8), ToLE(f.bits(sl.l0Impact[i]), 4));
  }

  lemma {:induction false} L1Prefix(sl: SkipList, m: nat, n: nat)
    requires Shaped(sl) && m <= n <= |sl.l1DocIDs|
    ensures L1Bytes(sl, m) <= L1Bytes(sl, n)
  {
    hide Shaped, ToLE;
    Sizes(sl);
    if m < n { L1Prefix(sl, m, n - 1); }
  }

  /** Entry j of L1, behind all of L0: last document and index of its first L0 entry. */
  lemma L1Layout(sl: SkipList, f: Float32, j: nat)
    requires Shaped(sl) && j < |sl.l1DocIDs|
    ensures j < |sl.l1L0Idx|
    ensures var bs, at := Bytes(sl, f), 8 + 28 * |sl.l0DocIDs| + 16 * j;
            at + 16 <= |bs| && bs[at..at + 8] == ToLE(sl.l1DocIDs[j], 8) && bs[at + 8..at + 16] == ToLE(sl.l1L0Idx[j], 8)
  {
    hide ToLE, Shaped, Header, L0Bytes, L1Bytes;
    Sizes(sl);
    var x, y := ToLE(sl.l1DocIDs[j], 8), ToLE(sl.l1L0Idx[j], 8);
    L1Slice(sl, j);
    var bs, from, all := Bytes(sl, f), 8 + 28 * |sl.l0DocIDs|, L1Bytes(sl, |sl.l1DocIDs|);
    assert bs[from..] == all;
    PartOf(bs, from, all, 16 * j, 16 * j + 16);
    TwoParts(bs, from + 16 * j, x, y);
  }

  lemma L1Slice(sl: SkipList, j: nat)
    requires Shaped(sl) && j < |sl.l1DocIDs|
    ensures j < |sl.l1L0Idx| && 16 * j + 16 <= |L1Bytes(sl, |sl.l1DocIDs|)|
    ensures L1Bytes(sl, |sl.l1DocIDs|)[16 * j..16 * j + 16] == ToLE(sl.l1DocIDs[j], 8) + ToLE(sl.l1L0Idx[j], 8)
  {
    hide ToLE, Shaped;
    Sizes(sl);
    var next, all := j + 1, L1Bytes(sl, |sl.l1DocIDs|);
    L1Prefix(sl, next, |sl.l1DocIDs|);
    var e := ToLE(sl.l1DocIDs[j], 8) + ToLE(sl.l1L0Idx[j], 8);
    assert L1Bytes(sl, next) == L1Bytes(sl, j) + e;
    assert all[..16 * next] == L1Bytes(sl, next);
  }

  lemma TwoParts(data: seq<byte>, at: nat, x: seq<byte>, y: seq<byte>)
    requires |x| == |y| == 8 && at + 16 <= |data| && data[at..at + 16] == x + y
    ensures data[at..at + 8] == x && data[at + 8..at + 16] == y
  {
    PartOf(data, at, x + y, 0, 8);
    PartOf(data, at, x + y, 8, 16);
  }
}
