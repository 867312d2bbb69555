/** Segment files as bytes: writing an index and parsing it back (internal/segment/writer.go, format.go). */
module SegmentFile {
  import opened Options
  import opened Bits
  import opened Skips = SkipList
  import opened SkipBytes
  import opened Index = InvertedIndex

  /** "SEG2" */
  const MAGIC: seq<byte> := [83, 69, 71, 50]
  const VERSION: nat := 6
  const HEADER_SIZE: nat := 40
  const TERM_INFO_SIZE: nat := 24

  /** The term dictionary: its keys in order and each key's ordinal. */
  datatype Fst = Fst(keys: seq<gostring>, values: map<gostring, nat>)

  /** What the machine and the dictionary library provide: 32-bit floats, rounding to them, and the dictionary's bytes. */
  datatype Formats = Formats(f: Float32, round32: real -> real, build: seq<gostring> -> seq<byte>, load: seq<byte> -> Option<Fst>)

  datatype TermInfo = TermInfo(df: nat, ub: real, postingsOffset: nat, postingsLen: nat)

  datatype Segment = Segment(
    docCount: nat,
    fst: Fst,
    infos: seq<TermInfo>,
    docLens: seq<nat>,
    docIDs: seq<gostring>,
    docIDToNum: map<gostring, nat>,
    postData: seq<byte>,
    totalTokens: nat)

  /** OutOfRange is a slice beyond the data, where the code panics. */
  datatype ParseError = TooSmall | BadMagic | BadVersion | BadFst | TruncatedLens | CountMismatch | TruncatedIDs | IDCountMismatch | OutOfRange

  datatype Parsed = Ok(seg: Segment) | Err(error: ParseError)

  // ----- what is written

  ghost predicate Writable(idx: InvertedIndex) {
    && Tables(idx) && (idx.terms != [] ==> |idx.offsets| == |idx.terms| + 1)
    && forall o :: 0 <= o < |idx.terms| ==> TermWritable(idx, o)
  }

  ghost predicate TermWritable(idx: InvertedIndex, o: nat) {
    && o + 1 < |idx.offsets| && idx.offsets[o] <= idx.offsets[o + 1] <= |idx.data|
    && o < |idx.skipLists| && (idx.skipLists[o].Some? ==> Shaped(idx.skipLists[o].value))
  }

  ghost function SkipData(idx: InvertedIndex, fm: Formats, o: nat): seq<byte>
    requires TermWritable(idx, o)
  {
    if idx.skipLists[o].Some? then Bytes(idx.skipLists[o].value, fm.f) else []
  }

  function RawPost(idx: InvertedIndex, o: nat): seq<byte>
    requires TermWritable(idx, o)
  {
    idx.data[idx.offsets[o]..idx.offsets[o + 1]]
  }

  /** One term in the posting section: the length of its skip data, the skip data, the postings. */
  ghost function Record(idx: InvertedIndex, fm: Formats, o: nat): seq<byte>
    requires TermWritable(idx, o)
  {
    ToLE(|SkipData(idx, fm, o)|, 8) + SkipData(idx, fm, o) + RawPost(idx, o)
  }

  ghost function Records(idx: InvertedIndex, fm: Formats, n: nat): seq<byte>
    requires Writable(idx) && n <= |idx.terms|
  {
    if n == 0 then [] else Records(idx, fm, n - 1) + Record(idx, fm, n - 1)
  }

  ghost function Info(idx: InvertedIndex, fm: Formats, o: nat): TermInfo
    requires Writable(idx) && o < |idx.terms|
  {
    TermInfo(idx.dfs[o], fm.round32(idx.ub[o]), |Records(idx, fm, o)|, |Record(idx, fm, o)|)
  }

  ghost function Infos(idx: InvertedIndex, fm: Formats, n: nat): (infos: seq<TermInfo>)
    requires Writable(idx) && n <= |idx.terms|
    ensures |infos| == n && forall o :: 0 <= o < n ==> infos[o] == Info(idx, fm, o)
  {
    seq(n, o requires 0 <= o < n => Info(idx, fm, o))
  }

  function InfoBytes(ti: TermInfo, f: Float32): (bs: seq<byte>)
    ensures |bs| == TERM_INFO_SIZE
  {
    ToLE(ti.df, 4) + ToLE(f.bits(ti.ub), 4) + ToLE(ti.postingsOffset, 8) + ToLE(ti.postingsLen, 8)
  }

  function InfosBytes(infos: seq<TermInfo>, f: Float32, n: nat): (bs: seq<byte>)
    requires n <= |infos|
    ensures |bs| == TERM_INFO_SIZE * n
  {
    if n == 0 then [] else InfosBytes(infos, f, n - 1) + InfoBytes(infos[n - 1], f)
  }

  function LensBytes(lens: seq<nat>, n: nat): (bs: seq<byte>)
    requires n <= |lens|
    ensures |bs| == 4 * n
  {
    if n == 0 then [] else LensBytes(lens, n - 1) + ToLE(lens[n - 1], 4)
  }

  function IDsBytes(ids: seq<gostring>, n: nat): seq<byte>
    requires n <= |ids|
  {
    if n == 0 then [] else IDsBytes(ids, n - 1) + (ToLE(|ids[n - 1]|, 4) + ids[n - 1])
  }

  /** The header and the offsets in it. */
  function FileHeader(docCount: nat, termOff: nat, postOff: nat): (bs: seq<byte>)
    ensures |bs| == HEADER_SIZE
  {
    MAGIC + ToLE(VERSION, 4) + ToLE(docCount, 8) + ToLE(HEADER_SIZE, 8) + ToLE(termOff, 8) + ToLE(postOff, 8)
  }

  /** A file: header, dictionary, term infos, lengths, IDs, postings. */
  function Layout(docCount: nat, fst: seq<byte>, infos: seq<byte>, lens: seq<byte>, ids: seq<byte>, post: seq<byte>): seq<byte> {
    var termOff := HEADER_SIZE + 4 + |fst|;
    var postOff := termOff + |infos| + 8 + |lens| + 8 + |ids|;
    FileHeader(docCount, termOff, postOff) + (ToLE(|fst|, 4) + fst) + infos + (ToLE(docCount, 8) + lens) + (ToLE(docCount, 8) + ids) + post
  }

  ghost function FileBytes(idx: InvertedIndex, fm: Formats): seq<byte>
    requires Writable(idx)
  {
    var n := |idx.terms|;
    Layout(idx.N, fm.build(idx.terms), InfosBytes(Infos(idx, fm, n), fm.f, n), LensBytes(idx.DocLens(), idx.N), IDsBytes(idx.docIDs, idx.N),
           Records(idx, fm, n))
  }

  // ----- what is read

  function Field(data: seq<byte>, at: nat, n: nat): nat
    requires at + n <= |data|
  {
    LE(data[at..at + n])
  }

  function Field32(data: seq<byte>, at: nat): u32
    requires at + 4 <= |data|
  {
    LEBound(data[at..at + 4]);
    Pow2Values();
    LE(data[at..at + 4])
  }

  function InfoAt(data: seq<byte>, at: nat, f: Float32): TermInfo
    requires at + TERM_INFO_SIZE <= |data|
  {
    TermInfo(Field32(data, at), f.unbits(Field32(data, at + 4)), Field(data, at + 8, 8), Field(data, at + 16, 8))
  }

  function InfosAt(data: seq<byte>, at: nat, n: nat, f: Float32): (infos: seq<TermInfo>)
    requires n == 0 || at + TERM_INFO_SIZE * n <= |data|
    ensures |infos| == n
  {
    if n == 0 then [] else InfosAt(data, at, n - 1, f) + [InfoAt(data, at + TERM_INFO_SIZE * (n - 1), f)]
  }

  function LensAt(data: seq<byte>, at: nat, n: nat): (lens: seq<nat>)
    requires n == 0 || at + 4 * n <= |data|
    ensures |lens| == n
  {
    if n == 0 then [] else LensAt(data, at, n - 1) + [Field32(data, at + 4 * (n - 1))]
  }

  datatype IDList = IDList(ids: seq<gostring>, pos: nat)

  /** n length-prefixed strings and where they end; None when one leaves the data. */
  function IDsAt(data: seq<byte>, at: nat, n: nat): (r: Option<IDList>)
    ensures r.Some? ==> |r.value.ids| == n
  {
    if n == 0 then Some(IDList([], at)) else
      var before := IDsAt(data, at, n - 1);
      if before.None? then None else
        var pos := before.value.pos;
        if pos + 4 > |data| then None else
          var end := pos + 4 + Field32(data, pos);
          if end > |data| then None else Some(IDList(before.value.ids + [data[pos + 4..end]], end))
  }

  /** Numbers by ID; the last of equal IDs counts. */
  function Numbers(ids: seq<gostring>, n: nat): map<gostring, nat>
    requires n <= |ids|
  {
    if n == 0 then map[] else Numbers(ids, n - 1)[ids[n - 1] := n - 1]
  }

  function Total(lens: seq<nat>, n: nat): nat
    requires n <= |lens|
  {
    if n == 0 then 0 else Total(lens, n - 1) + lens[n - 1]
  }

  function Parse(data: seq<byte>, fm: Formats): Parsed {
    if |data| < HEADER_SIZE then Err(TooSmall)
    else if data[0..4] != MAGIC then Err(BadMagic)
    else if Field(data, 4, 4) != VERSION then Err(BadVersion)
    else
      var fstOff := Field(data, 16, 8);
      if fstOff + 4 > |data| || fstOff + 4 + Field(data, fstOff, 4) > |data| then Err(OutOfRange)
      else
        var fst := fm.load(data[fstOff + 4..fstOff + 4 + Field(data, fstOff, 4)]);
        if fst.None? then Err(BadFst)
        else ParseTables(data, fm, Field(data, 8, 8), fst.value, Field(data, 24, 8), Field(data, 32, 8))
  }

  function ParseTables(data: seq<byte>, fm: Formats, docCount: nat, fst: Fst, termOff: nat, postOff: nat): Parsed {
    var n := |fst.keys|;
    var docLenOff := termOff + TERM_INFO_SIZE * n;
    var docIDOff := docLenOff + 8 + 4 * docCount;
    if n > 0 && docLenOff > |data| then Err(OutOfRange)
    else if docLenOff + 8 > |data| then Err(TruncatedLens)
    else if Field(data, docLenOff, 8) != docCount then Err(CountMismatch)
    else if docIDOff > |data| then Err(OutOfRange)
    else if docIDOff + 8 > |data| then Err(TruncatedIDs)
    else if Field(data, docIDOff, 8) != docCount then Err(IDCountMismatch)
    else
      var lens := LensAt(data, docLenOff + 8, docCount);
      var ids := IDsAt(data, docIDOff + 8, docCount);
      if ids.None? || postOff > |data| then Err(OutOfRange)
      else Ok(Segment(docCount, fst, InfosAt(data, termOff, n, fm.f), lens, ids.value.ids, Numbers(ids.value.ids, docCount),
                      data[postOff..], Total(lens, docCount)))
  }

  // ----- writing

  method WriteSegment(idx: InvertedIndex, fm: Formats) returns (file: seq<byte>)
    requires Writable(idx)
    ensures file == FileBytes(idx, fm)
  {
    hide Writable, Tables, TermWritable, ToLE, FileHeader, InfosBytes, LensBytes, IDsBytes, Infos, Records, InvertedIndex.DocLens;
    WritableSizes(idx);
    var fstData := fm.build(idx.terms);
    var docCount := idx.N;
    var lens := EncodeLens(idx);
    var ids := EncodeIDs(idx.docIDs, docCount);
    var infos, post := EncodePostings(idx, fm);

    var fstOff := HEADER_SIZE;
    var termOff := fstOff + 4 + |fstData|;
    var docLenOff := termOff + |infos| * TERM_INFO_SIZE;
    var docIDOff := docLenOff + |lens|;
    var postOff := docIDOff + |ids|;

    var hdr := EncodeHeader(docCount, fstOff, termOff, postOff);
    var fstSection := ToLE(|fstData|, 4) + fstData;
    var termSection := EncodeInfos(infos, fm.f);
    file := hdr + fstSection + termSection + lens + ids + post;
  }

  method EncodeInfos(infos: seq<TermInfo>, f: Float32) returns (bs: seq<byte>)
    ensures bs == InfosBytes(infos, f, |infos|)
  {
    hide ToLE;
    bs := [];
    for i := 0 to |infos|
      invariant bs == InfosBytes(infos, f, i)
    {
      var ti := infos[i];
      bs := bs + (ToLE(ti.df, 4) + ToLE(f.bits(ti.ub), 4) + ToLE(ti.postingsOffset, 8) + ToLE(ti.postingsLen, 8));
    }
  }

  lemma WritableSizes(idx: InvertedIndex)
    requires Writable(idx)
    ensures |idx.ub| == |idx.dfs| == |idx.skipLists| == |idx.terms| && |idx.docIDs| == idx.N
    ensures forall o :: 0 <= o < |idx.terms| ==> TermWritable(idx, o) && idx.TermUB(idx.terms[o]) == idx.ub[o] && idx.DF(idx.terms[o]) == idx.dfs[o]
  {
  }

  method EncodeHeader(docCount: nat, fstOff: nat, termOff: nat, postOff: nat) returns (hdr: seq<byte>)
    requires fstOff == HEADER_SIZE
    ensures hdr == FileHeader(docCount, termOff, postOff)
  {
    hide ToLE;
    var buf := new byte[HEADER_SIZE](_ => 0);
    buf[0], buf[1], buf[2], buf[3] := 83, 69, 71, 50;
    assert buf[..4] == MAGIC;
    var off := Put(buf, 4, VERSION, 4);
    off := Put(buf, off, docCount, 8);
    off := Put(buf, off, fstOff, 8);
    off := Put(buf, off, termOff, 8);
    off := Put(buf, off, postOff, 8);
    hdr := buf[..];
    assert hdr == buf[..off];
  }

  method EncodeLens(idx: InvertedIndex) returns (bs: seq<byte>)
    ensures bs == ToLE(idx.N, 8) + LensBytes(idx.DocLens(), idx.N)
  {
    hide ToLE;
    var docCount := idx.N;
    var buf := new byte[8 + docCount * 4](_ => 0);
    var off := Put(buf, 0, docCount, 8);
    for i := 0 to docCount
      invariant off == 8 + 4 * i && buf[..off] == ToLE(idx.N, 8) + LensBytes(idx.DocLens(), i)
    {
      var docStr := idx.DocStringID(i);
      off := Put(buf, off, idx.DocLen(docStr), 4);
      assert idx.DocLens()[i] == idx.DocLen(docStr);
    }
    bs := buf[..];
    assert bs == buf[..off];
  }

  method EncodeIDs(docIDs: seq<gostring>, docCount: nat) returns (bs: seq<byte>)
    requires docCount == |docIDs|
    ensures bs == ToLE(docCount, 8) + IDsBytes(docIDs, docCount)
  {
    hide ToLE;
    bs := ToLE(docCount, 8);
    for i := 0 to docCount
      invariant bs == ToLE(docCount, 8) + IDsBytes(docIDs, i)
    {
      bs := bs + ToLE(|docIDs[i]|, 4);
      bs := bs + docIDs[i];
    }
  }

  method EncodePostings(idx: InvertedIndex, fm: Formats) returns (infos: seq<TermInfo>, post: seq<byte>)
    requires Writable(idx)
    ensures infos == Infos(idx, fm, |idx.terms|) && post == Records(idx, fm, |idx.terms|)
  {
    hide Writable, Record, TermWritable;
    WritableSizes(idx);
    infos, post := [], [];
    for ord := 0 to |idx.terms|
      invariant infos == Infos(idx, fm, ord) && post == Records(idx, fm, ord)
    {
      assert TermWritable(idx, ord);
      var off, term := |post|, idx.terms[ord];
      var df, ub := idx.DF(term), idx.TermUB(term);
      var record := EncodeRecord(idx, fm, ord);
      post := post + record;
      infos := infos + [TermInfo(df, fm.round32(ub), off, |record|)];
    }
  }

  method EncodeRecord(idx: InvertedIndex, fm: Formats, ord: nat) returns (record: seq<byte>)
    requires TermWritable(idx, ord)
    ensures record == Record(idx, fm, ord)
  {
    hide Bytes, ToLE;
    var rawPost, skipData := RawPost(idx, ord), [];
    if idx.skipLists[ord].Some? {
      skipData := RawSkipBytes(idx.skipLists[ord].value, fm.f);
    }
    record := ToLE(|skipData|, 8) + skipData + rawPost;
  }

  // ----- parsing

  method ParseSegment(data: seq<byte>, fm: Formats) returns (r: Parsed)
    ensures r == Parse(data, fm)
  {
    hide LE, ParseTables;
    if |data| < HEADER_SIZE {
      return Err(TooSmall);
    }
    if data[0..4] != MAGIC {
      return Err(BadMagic);
    }
    var ver := LE(data[4..8]);
    if ver != VERSION {
      return Err(BadVersion);
    }
    var docCount := LE(data[8..16]);
    var fstOff := LE(data[16..24]);
    var termOff := LE(data[24..32]);
    var postOff := LE(data[32..40]);
    if fstOff + 4 > |data| || fstOff + 4 + LE(data[fstOff..fstOff + 4]) > |data| {
      return Err(OutOfRange);
    }
    var fstLen := LE(data[fstOff..fstOff + 4]);
    var loaded := fm.load(data[fstOff + 4..fstOff + 4 + fstLen]);
    if loaded.None? {
      return Err(BadFst);
    }
    r := ReadTables(data, fm, docCount, loaded.value, termOff, postOff);
  }

  method ReadTables(data: seq<byte>, fm: Formats, docCount: nat, fst: Fst, termOff: nat, postOff: nat) returns (r: Parsed)
    ensures r == ParseTables(data, fm, docCount, fst, termOff, postOff)
  {
    hide LE, Field32, InfosAt, LensAt, IDsAt, Numbers, Total;
    var nTerms := |fst.keys|;
    var infos := ReadInfos(data, termOff, nTerms, fm.f);
    if infos.None? {
      return Err(OutOfRange);
    }
    var docLenOff := termOff + nTerms * TERM_INFO_SIZE;
    if docLenOff + 8 > |data| {
      return Err(TruncatedLens);
    }
    var storedDocCount := LE(data[docLenOff..docLenOff + 8]);
    if storedDocCount != docCount {
      return Err(CountMismatch);
    }
    var docLens := ReadLens(data, docLenOff + 8, docCount);
    if docLens.None? {
      return Err(OutOfRange);
    }
    var docIDOff := docLenOff + 8 + docCount * 4;
    if docIDOff + 8 > |data| {
      return Err(TruncatedIDs);
    }
    var storedDocCount2 := LE(data[docIDOff..docIDOff + 8]);
    if storedDocCount2 != docCount {
      return Err(IDCountMismatch);
    }
    var docIDs, docIDToNum, totalTokens := ReadIDs(data, docIDOff + 8, docCount, docLens.value);
    if docIDs.None? || postOff > |data| {
      return Err(OutOfRange);
    }
    r := Ok(Segment(docCount, fst, infos.value, docLens.value, docIDs.value, docIDToNum, data[postOff..], totalTokens));
  }

  method ReadInfos(data: seq<byte>, at: nat, n: nat, f: Float32) returns (infos: Option<seq<TermInfo>>)
    ensures infos == if n > 0 && at + TERM_INFO_SIZE * n > |data| then None else Some(InfosAt(data, at, n, f))
  {
    hide InfoAt;
    var read := [];
    for i := 0 to n
      invariant (i == 0 || at + TERM_INFO_SIZE * i <= |data|) && read == InfosAt(data, at, i, f)
    {
      var off := at + i * TERM_INFO_SIZE;
      if off + 24 > |data| {
        return None;
      }
      read := read + [InfoAt(data, off, f)];
    }
    infos := Some(read);
  }

  method ReadLens(data: seq<byte>, at: nat, n: nat) returns (lens: Option<seq<nat>>)
    ensures lens == if n > 0 && at + 4 * n > |data| then None else Some(LensAt(data, at, n))
  {
    hide Field32;
    var read: seq<nat> := [];
    for i := 0 to n
      invariant (i == 0 || at + 4 * i <= |data|) && read == LensAt(data, at, i)
    {
      var base := at + i * 4;
      if base + 4 > |data| {
        return None;
      }
      read := read + [Field32(data, base)];
    }
    lens := Some(read);
  }

  /** The IDs with their numbers, and the sum of the lengths beside. */
  method ReadIDs(data: seq<byte>, at: nat, n: nat, docLens: seq<nat>)
    returns (ids: Option<seq<gostring>>, docIDToNum: map<gostring, nat>, totalTokens: nat)
    requires n == |docLens|
    ensures ids.Some? <==> IDsAt(data, at, n).Some?
    ensures ids.Some? ==> ids.value == IDsAt(data, at, n).value.ids && docIDToNum == Numbers(ids.value, n) && totalTokens == Total(docLens, n)
  {
    hide Field32, IDsAt, Numbers, Total;
    NoneRead(data, at, docLens);
    var docIDs: seq<gostring>, pos: nat := [], at;
    docIDToNum, totalTokens := map[], 0;
    for i := 0 to n
      invariant IDsAt(data, at, i) == Some(IDList(docIDs, pos))
      invariant docIDToNum == Numbers(docIDs, i) && totalTokens == Total(docLens, i)
    {
      NextID(data, at, i, docIDs, pos);
      NextTotal(docLens, i);
      if pos + 4 > |data| {
        NoIDs(data, at, i + 1, n);
        return None, docIDToNum, totalTokens;
      }
      var slen: nat := Field32(data, pos);
      pos := pos + 4;
      if pos + slen > |data| {
        NoIDs(data, at, i + 1, n);
        return None, docIDToNum, totalTokens;
      }
      NumbersSnoc(docIDs, data[pos..pos + slen]);
      docIDs := docIDs + [data[pos..pos + slen]];
      docIDToNum := docIDToNum[docIDs[i] := i];
      pos := pos + slen;
      totalTokens := totalTokens + docLens[i];
    }
    ids := Some(docIDs);
  }

  lemma NoneRead(data: seq<byte>, at: nat, lens: seq<nat>)
    ensures IDsAt(data, at, 0) == Some(IDList([], at)) && Numbers([], 0) == map[] && Total(lens, 0) == 0
  {
  }

  lemma NextID(data: seq<byte>, at: nat, i: nat, ids: seq<gostring>, pos: nat)
    requires IDsAt(data, at, i) == Some(IDList(ids, pos))
    ensures |ids| == i
    ensures IDsAt(data, at, i + 1)
         == if pos + 4 > |data| || pos + 4 + Field32(data, pos) > |data| then None
            else Some(IDList(ids + [data[pos + 4..pos + 4 + Field32(data, pos)]], pos + 4 + Field32(data, pos)))
  {
    hide Field32;
  }

  lemma NextTotal(lens: seq<nat>, i: nat)
    requires i < |lens|
    ensures Total(lens, i + 1) == Total(lens, i) + lens[i]
  {
  }

  lemma {:induction false} NoIDs(data: seq<byte>, at: nat, m: nat, n: nat)
    requires m <= n && IDsAt(data, at, m) == None
    ensures IDsAt(data, at, n) == None
  {
    if m < n { NoIDs(data, at, m, n - 1); }
  }

  lemma {:induction false} NumbersPrefix(ids: seq<gostring>, id: gostring, n: nat)
    requires n <= |ids|
    ensures Numbers(ids + [id], n) == Numbers(ids, n)
  {
    if n > 0 { NumbersPrefix(ids, id, n - 1); }
  }

  lemma NumbersSnoc(ids: seq<gostring>, id: gostring)
    ensures Numbers(ids + [id], |ids| + 1) == Numbers(ids, |ids|)[id := |ids|]
  {
    NumbersPrefix(ids, id, |ids|);
  }

  // ----- what is written parses back

  /** part lies at position at of data. */
  ghost predicate Holds(data: seq<byte>, at: nat, part: seq<byte>) {
    at + |part| <= |data| && data[at..at + |part|] == part
  }

  lemma HoldsSplit(data: seq<byte>, at: nat, a: seq<byte>, b: seq<byte>)
    requires Holds(data, at, a + b)
    ensures Holds(data, at, a) && Holds(data, at + |a|, b)
  {
    PartOf(data, at, a + b, 0, |a|);
    PartOf(data, at, a + b, |a|, |a + b|);
  }

  lemma HoldsField(data: seq<byte>, at: nat, v: nat, n: nat)
    requires Holds(data, at, ToLE(v, n)) && ((n == 4 && v < 0x1_0000_0000) || (n == 8 && v < U64))
    ensures at + n <= |data| && Field(data, at, n) == v
    ensures n == 4 ==> Field32(data, at) == v
  {
    hide LE, ToLE;
    FieldBack(v, n);
  }

  /** The numbers of a term fit their fields. */
  ghost predicate InfoFits(ti: TermInfo, f: Float32) {
    ti.df < 0x1_0000_0000 && f.unbits(f.bits(ti.ub)) == ti.ub && ti.postingsOffset < U64 && ti.postingsLen < U64
  }

  lemma InfoBack(data: seq<byte>, at: nat, ti: TermInfo, f: Float32)
    requires Holds(data, at, InfoBytes(ti, f)) && InfoFits(ti, f)
    ensures at + TERM_INFO_SIZE <= |data| && InfoAt(data, at, f) == ti
  {
    hide LE, ToLE, Holds, Field, Field32;
    var a, b, c, d := ToLE(ti.df, 4), ToLE(f.bits(ti.ub), 4), ToLE(ti.postingsOffset, 8), ToLE(ti.postingsLen, 8);
    HoldsSplit(data, at, a + b + c, d);
    HoldsSplit(data, at, a + b, c);
    HoldsSplit(data, at, a, b);
    HoldsField(data, at, ti.df, 4);
    HoldsField(data, at + 4, f.bits(ti.ub), 4);
    HoldsField(data, at + 8, ti.postingsOffset, 8);
    HoldsField(data, at + 16, ti.postingsLen, 8);
  }

  lemma {:induction false} InfosBack(data: seq<byte>, at: nat, infos: seq<TermInfo>, f: Float32, n: nat)
    requires n <= |infos| && Holds(data, at, InfosBytes(infos, f, n)) && forall i :: 0 <= i < n ==> InfoFits(infos[i], f)
    ensures at + TERM_INFO_SIZE * n <= |data| && InfosAt(data, at, n, f) == infos[..n]
  {
    hide InfoBytes, InfoAt, InfoFits;
    if n > 0 {
      HoldsSplit(data, at, InfosBytes(infos, f, n - 1), InfoBytes(infos[n - 1], f));
      InfosBack(data, at, infos, f, n - 1);
      InfoBack(data, at + TERM_INFO_SIZE * (n - 1), infos[n - 1], f);
    }
  }

  lemma {:induction false} LensBack(data: seq<byte>, at: nat, lens: seq<nat>, n: nat)
    requires n <= |lens| && Holds(data, at, LensBytes(lens, n)) && forall i :: 0 <= i < n ==> lens[i] < 0x1_0000_0000
    ensures at + 4 * n <= |data| && LensAt(data, at, n) == lens[..n]
  {
    hide ToLE, LE, Field32;
    if n > 0 {
      HoldsSplit(data, at, LensBytes(lens, n - 1), ToLE(lens[n - 1], 4));
      LensBack(data, at, lens, n - 1);
      HoldsField(data, at + 4 * (n - 1), lens[n - 1], 4);
    }
  }

  lemma {:induction false} IDsBack(data: seq<byte>, at: nat, ids: seq<gostring>, n: nat)
    requires n <= |ids| && Holds(data, at, IDsBytes(ids, n)) && forall i :: 0 <= i < n ==> |ids[i]| < 0x1_0000_0000
    ensures IDsAt(data, at, n) == Some(IDList(ids[..n], at + |IDsBytes(ids, n)|))
  {
    hide ToLE, LE, Field32;
    if n > 0 {
      var before, id := IDsBytes(ids, n - 1), ids[n - 1];
      HoldsSplit(data, at, before, ToLE(|id|, 4) + id);
      IDsBack(data, at, ids, n - 1);
      HoldsSplit(data, at + |before|, ToLE(|id|, 4), id);
      HoldsField(data, at + |before|, |id|, 4);
      SliceHeld(data, at + |before| + 4, id);
      assert ids[..n] == ids[..n - 1] + [id];
    }
  }

  /** Where the parts of a file lie. */
  lemma LayoutParts(docCount: nat, fst: seq<byte>, infos: seq<byte>, lens: seq<byte>, ids: seq<byte>, post: seq<byte>)
    ensures var data := Layout(docCount, fst, infos, lens, ids, post);
            var termOff := HEADER_SIZE + 4 + |fst|;
            var docIDOff := termOff + |infos| + 8 + |lens|;
            var postOff := docIDOff + 8 + |ids|;
            && Holds(data, 0, FileHeader(docCount, termOff, postOff)) && Holds(data, HEADER_SIZE, ToLE(|fst|, 4)) && Holds(data, HEADER_SIZE + 4, fst)
            && Holds(data, termOff, infos) && Holds(data, termOff + |infos|, ToLE(docCount, 8)) && Holds(data, termOff + |infos| + 8, lens)
            && Holds(data, docIDOff, ToLE(docCount, 8)) && Holds(data, docIDOff + 8, ids)
            && postOff <= |data| && data[postOff..] == post
  {
    hide FileHeader, ToLE, Holds;
    var data := Layout(docCount, fst, infos, lens, ids, post);
    var termOff := HEADER_SIZE + 4 + |fst|;
    var postOff := termOff + |infos| + 8 + |lens| + 8 + |ids|;
    var a, b, c, d, e := FileHeader(docCount, termOff, postOff), ToLE(|fst|, 4) + fst, infos, ToLE(docCount, 8) + lens, ToLE(docCount, 8) + ids;
    assert data == a + b + c + d + e + post;
    assert Holds(data, 0, a + b + c + d + e) by { WholeHolds(a + b + c + d + e, post); }
    HoldsSplit(data, 0, a + b + c + d, e);
    HoldsSplit(data, 0, a + b + c, d);
    HoldsSplit(data, 0, a + b, c);
    HoldsSplit(data, 0, a, b);
    HoldsSplit(data, |a|, ToLE(|fst|, 4), fst);
    HoldsSplit(data, |a + b + c|, ToLE(docCount, 8), lens);
    HoldsSplit(data, |a + b + c + d|, ToLE(docCount, 8), ids);
  }

  lemma WholeHolds(a: seq<byte>, post: seq<byte>)
    ensures Holds(a + post, 0, a)
  {
  }

  lemma FileHeaderBack(data: seq<byte>, docCount: nat, termOff: nat, postOff: nat)
    requires Holds(data, 0, FileHeader(docCount, termOff, postOff)) && docCount < U64 && termOff < U64 && postOff < U64
    ensures |data| >= HEADER_SIZE && data[0..4] == MAGIC && Field(data, 4, 4) == VERSION && Field(data, 8, 8) == docCount
    ensures Field(data, 16, 8) == HEADER_SIZE && Field(data, 24, 8) == termOff && Field(data, 32, 8) == postOff
  {
    hide ToLE, LE, Holds, Field;
    var a, b, c, d, e := ToLE(VERSION, 4), ToLE(docCount, 8), ToLE(HEADER_SIZE, 8), ToLE(termOff, 8), ToLE(postOff, 8);
    HoldsSplit(data, 0, MAGIC + a + b + c + d, e);
    HoldsSplit(data, 0, MAGIC + a + b + c, d);
    HoldsSplit(data, 0, MAGIC + a + b, c);
    HoldsSplit(data, 0, MAGIC + a, b);
    HoldsSplit(data, 0, MAGIC, a);
    HoldsField(data, 4, VERSION, 4);
    HoldsField(data, 8, docCount, 8);
    HoldsField(data, 16, HEADER_SIZE, 8);
    HoldsField(data, 24, termOff, 8);
    HoldsField(data, 32, postOff, 8);
    MagicHeld(data);
  }

  lemma MagicHeld(data: seq<byte>)
    requires Holds(data, 0, MAGIC)
    ensures |data| >= 4 && data[0..4] == MAGIC
  {
  }

  /** What the code's field widths ask of an index and of its file. */
  ghost predicate FileFits(idx: InvertedIndex, fm: Formats)
    requires Writable(idx)
  {
    && |FileBytes(idx, fm)| < U64 && |fm.build(idx.terms)| < 0x1_0000_0000
    && fm.load(fm.build(idx.terms)) == Some(Fst(idx.terms, idx.termIndex))
    && (forall o :: 0 <= o < |idx.terms| ==> InfoFits(Info(idx, fm, o), fm.f))
    && (forall d :: 0 <= d < idx.N ==> idx.DocLens()[d] < 0x1_0000_0000 && |idx.docIDs[d]| < 0x1_0000_0000)
  }

  /** The segment an index becomes on disk: its bounds are rounded and its skip lists are bytes. */
  ghost function Loaded(idx: InvertedIndex, fm: Formats): Segment
    requires Writable(idx)
  {
    Segment(idx.N, Fst(idx.terms, idx.termIndex), Infos(idx, fm, |idx.terms|), idx.DocLens(), idx.docIDs, idx.docIDIndex,
            Records(idx, fm, |idx.terms|), Total(idx.DocLens(), idx.N))
  }

  lemma {:induction false} NumbersAre(ids: seq<gostring>, n: nat, id: gostring)
    requires n <= |ids| && forall i, j :: 0 <= i < j < |ids| ==> ids[i] != ids[j]
    ensures id in Numbers(ids, n) <==> exists i :: 0 <= i < n && ids[i] == id
    ensures id in Numbers(ids, n) ==> Numbers(ids, n)[id] < n && ids[Numbers(ids, n)[id]] == id
  {
    if n > 0 { NumbersAre(ids, n - 1, id); }
  }

  lemma NumbersUnique(ids: seq<gostring>, index: map<gostring, nat>)
    requires forall s :: s in index ==> index[s] < |ids| && ids[index[s]] == s
    requires forall i :: 0 <= i < |ids| ==> ids[i] in index && index[ids[i]] == i
    ensures Numbers(ids, |ids|) == index
  {
    var m := Numbers(ids, |ids|);
    forall i, j | 0 <= i < j < |ids| ensures ids[i] != ids[j] {
      assert index[ids[i]] == i && index[ids[j]] == j;
    }
    forall id ensures id in m <==> id in index {
      NumbersAre(ids, |ids|, id);
    }
    forall id | id in m ensures m[id] == index[id] {
      NumbersAre(ids, |ids|, id);
    }
  }

  lemma NumbersAreIndex(idx: InvertedIndex)
    requires Tables(idx)
    ensures Numbers(idx.docIDs, idx.N) == idx.docIDIndex && Numbers(idx.terms, |idx.terms|) == idx.termIndex
  {
    NumbersUnique(idx.docIDs, idx.docIDIndex);
    NumbersUnique(idx.terms, idx.termIndex);
  }

  /** Writing an index and parsing the file gives the segment of that index. */
  lemma FileRoundTrip(idx: InvertedIndex, fm: Formats)
    requires Writable(idx) && FileFits(idx, fm)
    ensures Parse(FileBytes(idx, fm), fm) == Ok(Loaded(idx, fm))
  {
    hide FileHeader, ToLE, LE, Holds, Field, Field32, InfoAt, InfoBytes, Records, Record, Tables, InvertedIndex.DocLens, InfosAt, LensAt, IDsAt, InfosBytes, LensBytes,
      IDsBytes, Infos, Numbers, Total, InfoFits, Info, TermWritable;
    TableSizes(idx);
    var n, docCount, lens := |idx.terms|, idx.N, idx.DocLens();
    var infos := Infos(idx, fm, n);
    var fst, data := fm.build(idx.terms), FileBytes(idx, fm);
    var termOff := HEADER_SIZE + 4 + |fst|;
    var docLenOff := termOff + TERM_INFO_SIZE * n;
    var docIDOff := docLenOff + 8 + 4 * docCount;
    var postOff := docIDOff + 8 + |IDsBytes(idx.docIDs, docCount)|;
    LayoutParts(docCount, fst, InfosBytes(infos, fm.f, n), LensBytes(lens, docCount), IDsBytes(idx.docIDs, docCount), Records(idx, fm, n));
    FileHeaderBack(data, docCount, termOff, postOff);
    HoldsField(data, HEADER_SIZE, |fst|, 4);
    SliceHeld(data, HEADER_SIZE + 4, fst);
    InfosBack(data, termOff, infos, fm.f, n);
    HoldsField(data, docLenOff, docCount, 8);
    LensBack(data, docLenOff + 8, lens, docCount);
    HoldsField(data, docIDOff, docCount, 8);
    IDsBack(data, docIDOff + 8, idx.docIDs, docCount);
    NumbersAreIndex(idx);
    assert infos[..n] == infos && lens[..docCount] == lens && idx.docIDs[..docCount] == idx.docIDs;
  }

  lemma TableSizes(idx: InvertedIndex)
    requires Tables(idx)
    ensures |idx.docIDs| == idx.N < U64
  {
  }

  lemma SliceHeld(data: seq<byte>, at: nat, part: seq<byte>)
    requires Holds(data, at, part)
    ensures at + |part| <= |data| && data[at..at + |part|] == part
  {
  }

  // ----- what the bytes say

  /** What makes a file unreadable, in the order in which it is found out. */
  lemma RefusedBecause(data: seq<byte>, fm: Formats)
    ensures Parse(data, fm) == Err(TooSmall) <==> |data| < 40
    ensures Parse(data, fm) == Err(BadMagic) <==> |data| >= 40 && data[0..4] != [83, 69, 71, 50]
    ensures Parse(data, fm) == Err(BadVersion) <==> |data| >= 40 && data[0..4] == [83, 69, 71, 50] && LE(data[4..8]) != 6
    ensures |data| >= 40 && data[0..4] == [83, 69, 71, 50] && LE(data[4..8]) == 6 ==>
              var at := LE(data[16..24]);
              if at + 4 > |data| || at + 4 + LE(data[at..at + 4]) > |data| then Parse(data, fm) == Err(OutOfRange)
              else fm.load(data[at + 4..at + 4 + LE(data[at..at + 4])]) == None ==> Parse(data, fm) == Err(BadFst)
  {
    hide LE;
  }

  /** Every file that is read has the magic and the version, and its counts agree. */
  lemma ReadMeans(data: seq<byte>, fm: Formats)
    requires Parse(data, fm).Ok?
    ensures |data| >= 40 && data[0..4] == [83, 69, 71, 50] && LE(data[4..8]) == 6
    ensures var fstAt, seg := LE(data[16..24]), Parse(data, fm).seg;
            && fstAt + 4 <= |data| && fstAt + 4 + LE(data[fstAt..fstAt + 4]) <= |data|
            && fm.load(data[fstAt + 4..fstAt + 4 + LE(data[fstAt..fstAt + 4])]) == Some(seg.fst)
            && seg.docCount == LE(data[8..16]) == |seg.docLens| == |seg.docIDs| && |seg.infos| == |seg.fst.keys|
            && LE(data[32..40]) <= |data| && seg.postData == data[LE(data[32..40])..]
  {
    hide LE, LensAt, InfosAt, IDsAt, Numbers, Total;
  }

  /** The lengths follow the term infos and the IDs follow the lengths, each behind the count. */
  lemma CountsRead(data: seq<byte>, fm: Formats, lensAt: nat, idsAt: nat)
    requires |data| >= 40 && Parse(data, fm).Ok?
    requires lensAt == LE(data[24..32]) + 24 * |Parse(data, fm).seg.fst.keys| && idsAt == lensAt + 8 + 4 * Parse(data, fm).seg.docCount
    ensures idsAt + 8 <= |data|
    ensures LE(data[lensAt..lensAt + 8]) == LE(data[idsAt..idsAt + 8]) == Parse(data, fm).seg.docCount
    ensures var ids := IDsAt(data, idsAt + 8, Parse(data, fm).seg.docCount); ids.Some? && ids.value.ids == Parse(data, fm).seg.docIDs
  {
    hide LE, LensAt, InfosAt, IDsAt, Numbers, Total;
  }

  /** Term infos and lengths lie one after the other behind their offsets. */
  lemma TablesRead(data: seq<byte>, fm: Formats, i: nat)
    requires Parse(data, fm).Ok?
    ensures |data| >= 40
    ensures i < |Parse(data, fm).seg.infos| ==>
              var at, ti := LE(data[24..32]) + 24 * i, Parse(data, fm).seg.infos[i];
              && at + 24 <= |data| && LE(data[at + 4..at + 8]) < 0x1_0000_0000
              && ti == TermInfo(LE(data[at..at + 4]), fm.f.unbits(LE(data[at + 4..at + 8])), LE(data[at + 8..at + 16]), LE(data[at + 16..at + 24]))
    ensures i < |Parse(data, fm).seg.docLens| ==>
              var at := LE(data[24..32]) + 24 * |Parse(data, fm).seg.fst.keys| + 8 + 4 * i;
              at + 4 <= |data| && Parse(data, fm).seg.docLens[i] == LE(data[at..at + 4])
  {
    hide LE, LensAt, InfosAt, IDsAt, Numbers, Total, InfoAt, Field32;
    var seg := Parse(data, fm).seg;
    var termOff := LE(data[24..32]);
    var docLenOff := termOff + 24 * |seg.fst.keys|;
    if i < |seg.infos| {
      InfosAtIs(data, termOff, |seg.infos|, fm.f, i);
      InfoAtIs(data, termOff + 24 * i, fm.f);
    }
    if i < |seg.docLens| {
      LensAtIs(data, docLenOff + 8, |seg.docLens|, i);
      Field32Is(data, docLenOff + 8 + 4 * i);
    }
  }

  lemma Field32Is(data: seq<byte>, at: nat)
    requires at + 4 <= |data|
    ensures Field32(data, at) == LE(data[at..at + 4])
  {
    hide LE;
  }

  lemma InfoAtIs(data: seq<byte>, at: nat, f: Float32)
    requires at + 24 <= |data|
    ensures LE(data[at + 4..at + 8]) < 0x1_0000_0000
    ensures InfoAt(data, at, f)
         == TermInfo(LE(data[at..at + 4]), f.unbits(LE(data[at + 4..at + 8])), LE(data[at + 8..at + 16]), LE(data[at + 16..at + 24]))
  {
    hide LE, Field32;
    Field32Is(data, at);
    Field32Is(data, at + 4);
  }

  lemma {:induction false} InfosAtIs(data: seq<byte>, at: nat, n: nat, f: Float32, i: nat)
    requires i < n && at + 24 * n <= |data|
    ensures InfosAt(data, at, n, f)[i] == InfoAt(data, at + 24 * i, f)
  {
    hide InfoAt;
    if i < n - 1 { InfosAtIs(data, at, n - 1, f, i); }
  }

  lemma {:induction false} LensAtIs(data: seq<byte>, at: nat, n: nat, i: nat)
    requires i < n && at + 4 * n <= |data|
    ensures LensAt(data, at, n)[i] == Field32(data, at + 4 * i)
  {
    hide Field32;
    if i < n - 1 { LensAtIs(data, at, n - 1, i); }
  }

  /** The four bytes at from are the length of id, which follows and ends at to. */
  ghost predicate IDLies(data: seq<byte>, from: nat, to: nat, id: gostring) {
    from + 4 <= to <= |data| && to == from + 4 + LE(data[from..from + 4]) && id == data[from + 4..to]
  }

  /** The IDs lie one after the other, each behind its length, ID i from pos[i] to pos[i + 1]. */
  lemma {:induction false} IDsRead(data: seq<byte>, at: nat, n: nat) returns (pos: seq<nat>)
    requires IDsAt(data, at, n).Some?
    ensures |pos| == n + 1 && pos[0] == at && pos[n] == IDsAt(data, at, n).value.pos
    ensures forall i :: 0 <= i < n ==> IDLies(data, pos[i], pos[i + 1], IDsAt(data, at, n).value.ids[i])
  {
    hide IDLies, LE, Field32;
    if n == 0 {
      pos := [at];
    } else {
      var before := IDsRead(data, at, n - 1);
      var ids, last := IDsAt(data, at, n - 1).value.ids, before[n - 1];
      NextID(data, at, n - 1, ids, last);
      NextLies(data, last);
      pos := before + [last + 4 + Field32(data, last)];
      var all := IDsAt(data, at, n).value.ids;
      forall i | 0 <= i < n ensures IDLies(data, pos[i], pos[i + 1], all[i]) {
        if i < n - 1 { assert pos[i] == before[i] && pos[i + 1] == before[i + 1] && all[i] == ids[i]; }
      }
    }
  }

  lemma NextLies(data: seq<byte>, from: nat)
    requires from + 4 <= |data|
    ensures from + 4 + Field32(data, from) <= |data| ==>
              IDLies(data, from, from + 4 + Field32(data, from), data[from + 4..from + 4 + Field32(data, from)])
  {
    hide LE;
    Field32Is(data, from);
  }

  /** Each ID's number is its place, the later one's when an ID comes twice. */
  lemma NumbersRead(data: seq<byte>, fm: Formats, id: gostring)
    requires Parse(data, fm).Ok?
    ensures var seg := Parse(data, fm).seg;
            && (id in seg.docIDToNum <==> id in seg.docIDs)
            && (id in seg.docIDToNum ==>
                  seg.docIDToNum[id] < |seg.docIDs| && seg.docIDs[seg.docIDToNum[id]] == id
                  && forall j :: seg.docIDToNum[id] < j < |seg.docIDs| ==> seg.docIDs[j] != id)
  {
    hide LE, LensAt, InfosAt, IDsAt, Numbers, Total;
    var seg := Parse(data, fm).seg;
    LastNumberOf(seg.docIDs, |seg.docIDs|, id);
  }

  lemma {:induction false} LastNumberOf(ids: seq<gostring>, n: nat, id: gostring)
    requires n <= |ids|
    ensures id in Numbers(ids, n) <==> exists i :: 0 <= i < n && ids[i] == id
    ensures id in Numbers(ids, n) ==>
              Numbers(ids, n)[id] < n && ids[Numbers(ids, n)[id]] == id && forall j :: Numbers(ids, n)[id] < j < n ==> ids[j] != id
  {
    if n > 0 { LastNumberOf(ids, n - 1, id); }
  }
}
