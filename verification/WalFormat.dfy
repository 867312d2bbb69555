/**
 The binary write-ahead log (internal/shard/wal.go): record framing, the entry
 encoding, and reading back whatever part of a file a crash left. The checksum
 is a parameter; LZ4 files are not part of this model.
 */
module WalFormat {
  import opened Options
  import opened Bits

  datatype Op = Index | Delete | Other

  datatype WALEntry = WALEntry(
    seqNo: int,
    op: Op,
    docID: gostring,
    text: gostring,
    fields: map<gostring, gostring>,
    metadata: map<gostring, gostring>,
    ts: int)

  type Pairs = seq<(gostring, gostring)>

  // ----- fields

  const I64: int := 0x8000_0000_0000_0000

  /** uint64(v), eight bytes. */
  function AppendInt64(v: int): seq<byte> {
    ToLE(v % U64, 8)
  }

  /** int64(u). */
  function Int64(u: nat): int {
    if u < I64 then u else u - U64
  }

  /** A length of w bytes, cut to what they hold, and the string. */
  function AppendStr(s: gostring, w: nat): seq<byte> {
    ToLE(|s|, w) + s
  }

  datatype StrRead = Got(text: gostring, rest: seq<byte>) | Short

  function ReadStr(b: seq<byte>, w: nat): StrRead {
    if |b| < w then Short
    else
      var n := LE(b[..w]);
      if |b| - w < n then Short else Got(b[w..w + n], b[w + n..])
  }

  lemma StrBack(s: gostring, w: nat, rest: seq<byte>)
    requires (w == 1 && |s| < 0x100) || (w == 2 && |s| < 0x1_0000) || (w == 4 && |s| < 0x1_0000_0000)
    ensures ReadStr(AppendStr(s, w) + rest, w) == Got(s, rest)
  {
    hide ToLE, LE;
    FieldBack(|s|, w);
    var b := AppendStr(s, w) + rest;
    assert b[..w] == ToLE(|s|, w) && b[w..w + |s|] == s && b[w + |s|..] == rest;
  }

  lemma Int64Back(v: int, rest: seq<byte>)
    requires -I64 <= v < I64
    ensures Int64(LE((AppendInt64(v) + rest)[..8])) == v
  {
    hide ToLE, LE;
    FieldBack(v % U64, 8);
    assert (AppendInt64(v) + rest)[..8] == AppendInt64(v);
  }

  // ----- maps, in whatever order they are walked

  /** ps lists the entries of m, each once. */
  ghost predicate Orders(ps: Pairs, m: map<gostring, gostring>) {
    && (forall i :: 0 <= i < |ps| ==> ps[i].0 in m && m[ps[i].0] == ps[i].1)
    && (forall k :: k in m ==> exists i :: 0 <= i < |ps| && ps[i].0 == k)
    && |ps| == |m|
  }

  function AppendPairs(ps: Pairs, w: nat): seq<byte> {
    if ps == [] then [] else AppendStr(ps[0].0, 1) + AppendStr(ps[0].1, w) + AppendPairs(ps[1..], w)
  }

  datatype PairsRead = GotPairs(pairs: map<gostring, gostring>, rest: seq<byte>) | ShortPairs

  function ReadPairs(b: seq<byte>, n: nat, w: nat, acc: map<gostring, gostring>): PairsRead {
    if n == 0 then GotPairs(acc, b)
    else
      var k := ReadStr(b, 1);
      if k.Short? then ShortPairs
      else
        var v := ReadStr(k.rest, w);
        if v.Short? then ShortPairs else ReadPairs(v.rest, n - 1, w, acc[k.text := v.text])
  }

  function Collected(ps: Pairs, acc: map<gostring, gostring>): map<gostring, gostring> {
    if ps == [] then acc else Collected(ps[1..], acc[ps[0].0 := ps[0].1])
  }

  ghost predicate PairsFit(ps: Pairs, w: nat) {
    (w == 2 || w == 4)
    && forall i :: 0 <= i < |ps| ==> |ps[i].0| < 0x100 && |ps[i].1| < if w == 2 then 0x1_0000 else 0x1_0000_0000
  }

  lemma {:induction false} PairsBack(ps: Pairs, w: nat, acc: map<gostring, gostring>, rest: seq<byte>)
    requires PairsFit(ps, w)
    ensures ReadPairs(AppendPairs(ps, w) + rest, |ps|, w, acc) == GotPairs(Collected(ps, acc), rest)
    decreases |ps|
  {
    hide AppendStr, ReadStr;
    if ps == [] {
      assert AppendPairs(ps, w) + rest == rest;
    } else {
      var k, v, tail := AppendStr(ps[0].0, 1), AppendStr(ps[0].1, w), AppendPairs(ps[1..], w);
      assert AppendPairs(ps, w) + rest == k + (v + (tail + rest));
      StrBack(ps[0].0, 1, v + (tail + rest));
      StrBack(ps[0].1, w, tail + rest);
      PairsBack(ps[1..], w, acc[ps[0].0 := ps[0].1], rest);
    }
  }

  lemma {:induction false} CollectedIs(ps: Pairs, acc: map<gostring, gostring>, m: map<gostring, gostring>)
    requires forall i :: 0 <= i < |ps| ==> ps[i].0 in m && m[ps[i].0] == ps[i].1
    requires forall k :: k in acc ==> k in m && acc[k] == m[k]
    requires forall k :: k in m ==> k in acc || exists i :: 0 <= i < |ps| && ps[i].0 == k
    ensures Collected(ps, acc) == m
  {
    if ps == [] {
      assert acc.Keys == m.Keys;
    } else {
      var acc' := acc[ps[0].0 := ps[0].1];
      forall k | k in m && k !in acc' ensures exists i :: 0 <= i < |ps[1..]| && ps[1..][i].0 == k {
        var i :| 0 <= i < |ps| && ps[i].0 == k;
        assert ps[1..][i - 1] == ps[i];
      }
      CollectedIs(ps[1..], acc', m);
    }
  }

  // ----- entries

  function OpByte(op: Op): byte { if op.Index? then 1 else 2 }

  /** walAppendEntry, with the fields and the metadata in the orders given. */
  function AppendEntry(e: WALEntry, fields: Pairs, metadata: Pairs): seq<byte> {
    AppendInt64(e.seqNo) + AppendInt64(e.ts) + [OpByte(e.op)] + AppendStr(e.docID, 2)
    + if e.op.Index? then
        AppendStr(e.text, 4) + [|fields| % 256] + AppendPairs(fields, 4) + [|metadata| % 256] + AppendPairs(metadata, 2)
      else []
  }

  /** What the log keeps of an entry: anything but an index operation is a delete without text. */
  function Kept(e: WALEntry): WALEntry {
    if e.op.Index? then e else e.(op := Delete, text := [], fields := map[], metadata := map[])
  }

  /** Every part fits its field. */
  ghost predicate Fits(e: WALEntry, fields: Pairs, metadata: Pairs) {
    && -I64 <= e.seqNo < I64 && -I64 <= e.ts < I64 && |e.docID| < 0x1_0000
    && (e.op.Index? ==>
          && |e.text| < 0x1_0000_0000 && |fields| < 0x100 && |metadata| < 0x100
          && Orders(fields, e.fields) && PairsFit(fields, 4) && Orders(metadata, e.metadata) && PairsFit(metadata, 2))
  }

  /** walDecodeEntry; None for every error. */
  function DecodeEntry(b: seq<byte>): Option<WALEntry> {
    if |b| < 17 then None
    else
      var seqNo, ts, op := Int64(LE(b[0..8])), Int64(LE(b[8..16])), b[16];
      var docID := ReadStr(b[17..], 2);
      if docID.Short? then None
      else if op == 1 then DecodeIndex(seqNo, ts, docID.text, docID.rest)
      else if op == 2 then Some(WALEntry(seqNo, Delete, docID.text, [], map[], map[], ts))
      else None
  }

  function DecodeIndex(seqNo: int, ts: int, docID: gostring, b: seq<byte>): Option<WALEntry> {
    var text := ReadStr(b, 4);
    if text.Short? || |text.rest| < 1 then None
    else
      var fields := ReadPairs(text.rest[1..], text.rest[0], 4, map[]);
      if fields.ShortPairs? || |fields.rest| < 1 then None
      else
        var metadata := ReadPairs(fields.rest[1..], fields.rest[0], 2, map[]);
        if metadata.ShortPairs? then None
        else Some(WALEntry(seqNo, Index, docID, text.text, fields.pairs, metadata.pairs, ts))
  }

  lemma IndexBack(e: WALEntry, fields: Pairs, metadata: Pairs)
    requires Fits(e, fields, metadata) && e.op.Index?
    ensures var body := AppendStr(e.text, 4) + [|fields| % 256] + AppendPairs(fields, 4) + [|metadata| % 256] + AppendPairs(metadata, 2);
            DecodeIndex(e.seqNo, e.ts, e.docID, body) == Some(e)
  {
    hide AppendStr, ReadStr, AppendPairs, ReadPairs, PairsFit, Orders, Collected, DecodeIndex;
    var t, fs, ms := AppendStr(e.text, 4), AppendPairs(fields, 4), AppendPairs(metadata, 2);
    var nf, nm: byte := |fields| % 256, |metadata| % 256;
    Nest(t, nf, fs, nm, ms);
    StrBack(e.text, 4, [nf] + (fs + ([nm] + ms)));
    OrderedBack(fields, 4, e.fields, [nm] + ms);
    OrderedBack(metadata, 2, e.metadata, []);
    assert ms + [] == ms;
    IndexParts(e, t, nf, fs, nm, ms);
  }

  lemma Nest(t: seq<byte>, nf: byte, fs: seq<byte>, nm: byte, ms: seq<byte>)
    ensures t + [nf] + fs + [nm] + ms == t + ([nf] + (fs + ([nm] + ms)))
  {
  }

  lemma OrderedBack(ps: Pairs, w: nat, m: map<gostring, gostring>, rest: seq<byte>)
    requires PairsFit(ps, w) && Orders(ps, m)
    ensures ReadPairs(AppendPairs(ps, w) + rest, |ps|, w, map[]) == GotPairs(m, rest)
  {
    hide AppendPairs, ReadPairs, PairsFit;
    PairsBack(ps, w, map[], rest);
    CollectedIs(ps, map[], m);
  }

  lemma IndexParts(e: WALEntry, t: seq<byte>, nf: byte, fs: seq<byte>, nm: byte, ms: seq<byte>)
    requires e.op.Index?
    requires ReadStr(t + ([nf] + (fs + ([nm] + ms))), 4) == Got(e.text, [nf] + (fs + ([nm] + ms)))
    requires ReadPairs(fs + ([nm] + ms), nf, 4, map[]) == GotPairs(e.fields, [nm] + ms)
    requires ReadPairs(ms, nm, 2, map[]) == GotPairs(e.metadata, [])
    ensures DecodeIndex(e.seqNo, e.ts, e.docID, t + ([nf] + (fs + ([nm] + ms)))) == Some(e)
  {
    hide ReadStr, ReadPairs;
    assert ([nf] + (fs + ([nm] + ms)))[1..] == fs + ([nm] + ms) && ([nm] + ms)[1..] == ms;
  }

  /** Decoding an encoded entry gives back what the log keeps of it. */
  lemma EntryRoundTrip(e: WALEntry, fields: Pairs, metadata: Pairs)
    requires Fits(e, fields, metadata)
    ensures DecodeEntry(AppendEntry(e, fields, metadata)) == Some(Kept(e))
  {
    hide AppendStr, ReadStr, AppendPairs, ReadPairs, PairsFit, AppendInt64, LE, Int64, DecodeIndex;
    var body := if e.op.Index? then
        AppendStr(e.text, 4) + [|fields| % 256] + AppendPairs(fields, 4) + [|metadata| % 256] + AppendPairs(metadata, 2)
      else [];
    var b := AppendEntry(e, fields, metadata);
    var seqNo, ts := AppendInt64(e.seqNo), AppendInt64(e.ts);
    EightBytes(e.seqNo);
    EightBytes(e.ts);
    Int64Back(e.seqNo, []);
    Int64Back(e.ts, []);
    assert seqNo + [] == seqNo && ts + [] == ts;
    assert seqNo[..8] == seqNo && ts[..8] == ts;
    assert b[0..8] == seqNo && b[8..16] == ts && b[16] == OpByte(e.op) && b[17..] == AppendStr(e.docID, 2) + body;
    StrBack(e.docID, 2, body);
    if e.op.Index? { IndexBack(e, fields, metadata); }
  }

  lemma EightBytes(v: int)
    ensures |AppendInt64(v)| == 8
  {
  }

  // ----- the bytes themselves

  /** A signed number is the one of its class modulo 2^64 that fits. */
  lemma Int64Is(u: nat)
    requires u < U64
    ensures -0x8000_0000_0000_0000 <= Int64(u) < 0x8000_0000_0000_0000 && (Int64(u) == u || Int64(u) == u - 0x1_0000_0000_0000_0000)
  {
  }

  /** Nothing shorter than 17 bytes, or than its document ID, is decoded. */
  lemma ShortRefused(b: seq<byte>)
    requires |b| < 19 || |b| < 19 + LE(b[17..19])
    ensures DecodeEntry(b) == None
  {
    hide LE, DecodeIndex;
    if |b| >= 19 { assert b[17..][..2] == b[17..19]; }
  }

  /**
   Of a payload with a readable document ID, byte 16 alone decides the operation:
   2 is a delete, 1 an index, whose text follows, and anything else is refused.
   Number, time and ID lie before it and after it.
   */
  lemma OpByByte(b: seq<byte>)
    requires |b| >= 19 && |b| >= 19 + LE(b[17..19])
    ensures var end := 19 + LE(b[17..19]);
            var seqNo, ts, id, got := Int64(LE(b[0..8])), Int64(LE(b[8..16])), b[19..end], DecodeEntry(b);
            && (b[16] == 2 ==> got == Some(WALEntry(seqNo, Delete, id, [], map[], map[], ts)))
            && (b[16] == 1 && got.Some? ==>
                  && got.value.op == Index && got.value.seqNo == seqNo && got.value.ts == ts && got.value.docID == id
                  && end + 4 <= |b| && end + 4 + LE(b[end..end + 4]) < |b| && got.value.text == b[end + 4..end + 4 + LE(b[end..end + 4])])
            && (b[16] == 1 && (|b| < end + 4 || |b| <= end + 4 + LE(b[end..end + 4])) ==> got == None)
            && (b[16] != 1 && b[16] != 2 ==> got == None)
  {
    hide LE, Int64, ReadPairs;
    var rest, n := b[17..], LE(b[17..19]);
    var end := 19 + n;
    SliceOfTail(b, 17, 0, 2);
    SliceOfTail(b, 17, 2, 2 + n);
    TailOfTail(b, 17, 2 + n);
    assert rest[..2] == rest[0..2];
    if |b| >= end + 4 {
      SliceOfTail(b, end, 0, 4);
      assert b[end..][..4] == b[end..][0..4];
      if |b| >= end + 4 + LE(b[end..end + 4]) { SliceOfTail(b, end, 4, 4 + LE(b[end..end + 4])); }
    }
  }

  /**
   Where an encoded entry keeps what: number, time, the operation's byte, 1 for an
   index and 2 for all else, and the document ID behind its length; after these a
   delete has nothing, an index its text, the fields and the metadata.
   */
  lemma EntryLayout(e: WALEntry, fields: Pairs, metadata: Pairs)
    ensures var b, n := AppendEntry(e, fields, metadata), |e.docID|;
            && |b| >= 19 + n && b[0..8] == ToLE(e.seqNo % 0x1_0000_0000_0000_0000, 8) && b[8..16] == ToLE(e.ts % 0x1_0000_0000_0000_0000, 8)
            && b[16] == (if e.op.Index? then 1 else 2) && b[17..19] == ToLE(n, 2) && b[19..19 + n] == e.docID
            && b[19 + n..] == if !e.op.Index? then [] else
                 ToLE(|e.text|, 4) + e.text + [|fields| % 256] + AppendPairs(fields, 4) + [|metadata| % 256] + AppendPairs(metadata, 2)
  {
    hide ToLE, AppendPairs, AppendInt64;
    var body := if e.op.Index? then
        AppendStr(e.text, 4) + [|fields| % 256] + AppendPairs(fields, 4) + [|metadata| % 256] + AppendPairs(metadata, 2)
      else [];
    EightBytes(e.seqNo);
    EightBytes(e.ts);
    IsLE(e.seqNo);
    IsLE(e.ts);
    PartsOfEntry(AppendInt64(e.seqNo), AppendInt64(e.ts), OpByte(e.op), ToLE(|e.docID|, 2), e.docID, body);
  }

  lemma IsLE(v: int)
    ensures AppendInt64(v) == ToLE(v % 0x1_0000_0000_0000_0000, 8)
  {
    hide ToLE;
  }

  lemma PartsOfEntry(x: seq<byte>, y: seq<byte>, op: byte, l: seq<byte>, id: seq<byte>, body: seq<byte>)
    requires |x| == |y| == 8 && |l| == 2
    ensures var b := x + y + [op] + (l + id) + body;
            && |b| == 19 + |id| + |body| && b[0..8] == x && b[8..16] == y && b[16] == op
            && b[17..19] == l && b[19..19 + |id|] == id && b[19 + |id|..] == body
  {
  }

  /** One name and value of a map: each behind its length, of one byte and of w. */
  lemma PairsLayout(k: gostring, v: gostring, ps: Pairs, w: nat)
    ensures AppendPairs([(k, v)] + ps, w) == ToLE(|k|, 1) + k + ToLE(|v|, w) + v + AppendPairs(ps, w)
  {
    hide ToLE;
    assert ([(k, v)] + ps)[1..] == ps;
  }
}
