/** The record stream of a binary WAL file (internal/shard/wal.go) and every way a crash can cut it. */
module WalRecords {
  import opened Options
  import opened Bits
  import opened WalFormat

  /** crc32.ChecksumIEEE. */
  type Checksum = seq<byte> -> u32

  /** [payloadLen][crc][payload]. */
  function Frame(payload: seq<byte>, sum: u32): seq<byte> {
    ToLE(|payload|, 4) + ToLE(sum, 4) + payload
  }

  /** walWriteRecord. */
  method WriteRecord(file: seq<byte>, payload: seq<byte>, crc: Checksum) returns (file': seq<byte>)
    ensures file' == file + Frame(payload, crc(payload))
  {
    var hdr := ToLE(|payload|, 4) + ToLE(crc(payload), 4);
    file' := file + hdr;
    file' := file' + payload;
  }

  /** What one record with a matching checksum and a well-formed payload holds. */
  function Parsed(payload: seq<byte>, sum: nat, crc: Checksum): seq<WALEntry> {
    if crc(payload) == sum && DecodeEntry(payload).Some? then [DecodeEntry(payload).value] else []
  }

  /** The entries of a stream: a cut tail ends it, a corrupt record is passed over. */
  function Records(data: seq<byte>, crc: Checksum): seq<WALEntry>
    decreases |data|
  {
    if |data| < 8 then []
    else
      var n := LE(data[0..4]);
      if |data| - 8 < n then []
      else Parsed(data[8..8 + n], LE(data[4..8]), crc) + Records(data[8 + n..], crc)
  }

  /** readBinaryWALRecords, uncompressed, collecting what it passes to its callback. */
  method ReadBinaryWALRecords(data: seq<byte>, crc: Checksum) returns (entries: seq<WALEntry>)
    ensures entries == Records(data, crc)
  {
    hide *;
    entries := [];
    var pos := 0;
    assert data[0..] == data;
    while true
      invariant 0 <= pos <= |data| && entries + Records(data[pos..], crc) == Records(data, crc)
      decreases |data| - pos
    {
      if |data| - pos < 8 {
        ShortTail(data[pos..], crc);
        return;
      }
      var payloadLen := LE(data[pos..pos + 4]);
      var storedCRC := LE(data[pos + 4..pos + 8]);
      RecordsAt(data, pos, crc);
      if |data| - pos - 8 < payloadLen {
        return;
      }
      var payload := data[pos + 8..pos + 8 + payloadLen];
      ghost var found := Parsed(payload, storedCRC, crc);
      ghost var rest := Records(data[pos + 8 + payloadLen..], crc);
      assert entries + (found + rest) == (entries + found) + rest;
      ParsedIs(payload, storedCRC, crc);
      pos := pos + 8 + payloadLen;
      if crc(payload) != storedCRC {
        continue;
      }
      var e := DecodeEntry(payload);
      if e.None? {
        continue;
      }
      entries := entries + [e.value];
    }
  }

  lemma ShortTail(data: seq<byte>, crc: Checksum)
    requires |data| < 8
    ensures Records(data, crc) == []
  {
  }

  lemma ParsedIs(payload: seq<byte>, sum: nat, crc: Checksum)
    ensures Parsed(payload, sum, crc) == if crc(payload) == sum && DecodeEntry(payload).Some? then [DecodeEntry(payload).value] else []
  {
    hide DecodeEntry;
  }

  /** The record at pos, if it is whole, and what follows it. */
  lemma RecordsAt(data: seq<byte>, pos: nat, crc: Checksum)
    requires pos + 8 <= |data|
    ensures var n := LE(data[pos..pos + 4]);
            Records(data[pos..], crc) ==
              if |data| - pos - 8 < n then []
              else Parsed(data[pos + 8..pos + 8 + n], LE(data[pos + 4..pos + 8]), crc) + Records(data[pos + 8 + n..], crc)
  {
    hide DecodeEntry, LE, Parsed;
    var here := data[pos..];
    assert here[0..4] == data[pos..pos + 4] && here[4..8] == data[pos + 4..pos + 8];
    var n := LE(here[0..4]);
    if |here| - 8 >= n {
      assert here[8..8 + n] == data[pos + 8..pos + 8 + n];
      assert here[8 + n..] == data[pos + 8 + n..];
    }
  }

  /**
   A record of a delete, by its bytes: length and checksum, then number, time, 2,
   and the ID behind its length. Whatever follows, it is read as that delete.
   */
  lemma DeleteRead(data: seq<byte>, n: nat, crc: Checksum)
    requires 27 <= n <= |data| && n == 8 + LE(data[0..4]) && crc(data[8..n]) == LE(data[4..8])
    requires data[24] == 2 && n == 27 + LE(data[25..27])
    ensures Records(data, crc)
         == [WALEntry(Int64(LE(data[8..16])), Delete, data[27..n], [], map[], map[], Int64(LE(data[16..24])))] + Records(data[n..], crc)
  {
    hide LE, Int64, DecodeEntry;
    var b := data[8..n];
    SliceOfSlice(data, 8, n, 0, 8);
    SliceOfSlice(data, 8, n, 8, 16);
    SliceOfSlice(data, 8, n, 17, 19);
    SliceOfSlice(data, 8, n, 19, |b|);
    assert b[16] == data[24];
    OpByByte(b);
  }

  /** A record whose operation byte is neither 1 nor 2 is passed over, its checksum right or not. */
  lemma UnknownOpSkipped(data: seq<byte>, n: nat, crc: Checksum)
    requires 27 <= n <= |data| && n == 8 + LE(data[0..4]) && data[24] != 1 && data[24] != 2
    ensures Records(data, crc) == Records(data[n..], crc)
  {
    hide LE, DecodeEntry;
    var b := data[8..n];
    assert b[16] == data[24];
    UnknownOpRefused(b);
  }

  lemma UnknownOpRefused(b: seq<byte>)
    requires |b| >= 19 && b[16] != 1 && b[16] != 2
    ensures DecodeEntry(b) == None
  {
    hide LE, DecodeEntry;
    if |b| < 19 + LE(b[17..19]) { ShortRefused(b); } else { OpByByte(b); }
  }

  /** One whole frame in front. */
  lemma FrameFirst(payload: seq<byte>, sum: u32, rest: seq<byte>, crc: Checksum)
    requires |payload| < 0x1_0000_0000
    ensures Records(Frame(payload, sum) + rest, crc) == Parsed(payload, sum, crc) + Records(rest, crc)
  {
    hide DecodeEntry, LE, ToLE, Parsed;
    FieldBack(|payload|, 4);
    FieldBack(sum, 4);
    var data := Frame(payload, sum) + rest;
    var n := |payload|;
    assert data[0..4] == ToLE(n, 4) && data[4..8] == ToLE(sum, 4) && data[8..8 + n] == payload && data[8 + n..] == rest;
  }

  /** A corrupt or malformed record is passed over, and the ones after it survive. */
  lemma CorruptSkipped(payload: seq<byte>, sum: u32, rest: seq<byte>, crc: Checksum)
    requires |payload| < 0x1_0000_0000 && (crc(payload) != sum || DecodeEntry(payload).None?)
    ensures Records(Frame(payload, sum) + rest, crc) == Records(rest, crc)
  {
    hide DecodeEntry, Records;
    FrameFirst(payload, sum, rest, crc);
  }

  // ----- whole streams and their prefixes

  /** An entry to be written and the orders its maps are walked in. */
  datatype Writing = Writing(entry: WALEntry, fields: Pairs, metadata: Pairs)

  ghost predicate Writable(w: Writing) {
    Fits(w.entry, w.fields, w.metadata) && |Payload(w)| < 0x1_0000_0000
  }

  function Payload(w: Writing): seq<byte> {
    AppendEntry(w.entry, w.fields, w.metadata)
  }

  function RecordOf(w: Writing, crc: Checksum): seq<byte> {
    Frame(Payload(w), crc(Payload(w)))
  }

  function Stream(ws: seq<Writing>, crc: Checksum): seq<byte> {
    if ws == [] then [] else RecordOf(ws[0], crc) + Stream(ws[1..], crc)
  }

  function KeptOf(ws: seq<Writing>): seq<WALEntry> {
    if ws == [] then [] else [Kept(ws[0].entry)] + KeptOf(ws[1..])
  }

  /** How many records lie wholly inside the first n bytes. */
  function WholeRecords(ws: seq<Writing>, crc: Checksum, n: nat): (k: nat)
    ensures k <= |ws|
  {
    if ws == [] || |RecordOf(ws[0], crc)| > n then 0 else 1 + WholeRecords(ws[1..], crc, n - |RecordOf(ws[0], crc)|)
  }

  /** Record k is inside exactly when the stream up to and with it fits. */
  lemma {:induction false} WholeRecordsIs(ws: seq<Writing>, crc: Checksum, n: nat, k: nat)
    requires k <= |ws|
    ensures k <= WholeRecords(ws, crc, n) <==> |Stream(ws[..k], crc)| <= n
  {
    hide RecordOf;
    if k > 0 {
      assert ws[..k][1..] == ws[1..][..k - 1];
      if |RecordOf(ws[0], crc)| <= n {
        WholeRecordsIs(ws[1..], crc, n - |RecordOf(ws[0], crc)|, k - 1);
      }
    } else {
      assert ws[..0] == [];
    }
  }

  /** Less than a frame reads as nothing. */
  lemma CutFrame(payload: seq<byte>, sum: u32, cut: seq<byte>, crc: Checksum)
    requires |payload| < 0x1_0000_0000 && cut <= Frame(payload, sum) && |cut| < |Frame(payload, sum)|
    ensures Records(cut, crc) == []
  {
    hide DecodeEntry, LE, ToLE, Parsed;
    FieldBack(|payload|, 4);
    if |cut| >= 8 {
      assert cut[0..4] == Frame(payload, sum)[0..4] == ToLE(|payload|, 4);
    }
  }

  lemma RecordBack(w: Writing, rest: seq<byte>, crc: Checksum)
    requires Writable(w)
    ensures Records(RecordOf(w, crc) + rest, crc) == [Kept(w.entry)] + Records(rest, crc)
  {
    hide Records, AppendEntry, Frame, Fits, DecodeEntry, Kept;
    FrameFirst(Payload(w), crc(Payload(w)), rest, crc);
    EntryRoundTrip(w.entry, w.fields, w.metadata);
  }

  /** Any byte prefix of a record stream decodes to exactly the entries whose records lie wholly inside it. */
  lemma {:induction false} PrefixDecodes(ws: seq<Writing>, crc: Checksum, cut: seq<byte>)
    requires (forall i :: 0 <= i < |ws| ==> Writable(ws[i])) && cut <= Stream(ws, crc)
    ensures Records(cut, crc) == KeptOf(ws[..WholeRecords(ws, crc, |cut|)])
  {
    hide RecordOf, Writable, Kept, Records;
    NoRecords(crc);
    if ws != [] {
      var first := RecordOf(ws[0], crc);
      assert Stream(ws, crc)[..|first|] == first;
      if |first| <= |cut| {
        var cut' := cut[|first|..];
        assert cut[..|first|] == first && cut == first + cut';
        RecordBack(ws[0], cut', crc);
        assert cut' <= Stream(ws[1..], crc);
        PrefixDecodes(ws[1..], crc, cut');
        TakeMore(ws, WholeRecords(ws[1..], crc, |cut'|));
      } else {
        CutRecord(ws[0], cut, crc);
      }
    }
  }

  lemma NoRecords(crc: Checksum)
    ensures Records([], crc) == []
  {
  }

  lemma TakeMore(ws: seq<Writing>, k: nat)
    requires ws != [] && k <= |ws[1..]|
    ensures KeptOf(ws[..1 + k]) == [Kept(ws[0].entry)] + KeptOf(ws[1..][..k])
  {
    hide Kept;
    assert ws[..1 + k][1..] == ws[1..][..k];
  }

  lemma CutRecord(w: Writing, cut: seq<byte>, crc: Checksum)
    requires Writable(w) && cut <= RecordOf(w, crc) && |cut| < |RecordOf(w, crc)|
    ensures Records(cut, crc) == []
  {
    hide Records, AppendEntry, Frame, Fits;
    CutFrame(Payload(w), crc(Payload(w)), cut, crc);
  }

  /** The whole stream decodes to every entry. */
  lemma StreamRoundTrip(ws: seq<Writing>, crc: Checksum)
    requires forall i :: 0 <= i < |ws| ==> Writable(ws[i])
    ensures Records(Stream(ws, crc), crc) == KeptOf(ws)
  {
    hide Records, Writable, Stream, KeptOf, WholeRecords;
    PrefixDecodes(ws, crc, Stream(ws, crc));
    WholeRecordsIs(ws, crc, |Stream(ws, crc)|, |ws|);
    assert ws[..|ws|] == ws;
  }
}
