/**
 One shard's write-ahead log, buffer, segments and manifest (internal/shard,
 internal/storage/manifest.go): the state and what each operation does to it.
 Every operation is one atomic step and the log is synced.
 */
module ShardModel {
  import opened Options
  import opened Bits

  type Content = seq<byte>

  datatype LogOp = Index(content: Content) | Delete

  datatype LogEntry = LogEntry(seqNo: nat, op: LogOp, docID: gostring)

  /** A registered segment: its sequence number and the documents it holds. */
  datatype SegRec = SegRec(flushSeq: nat, docs: map<gostring, Content>)

  /** What survives a crash besides the log: segments, tombstones and the sequence floor. */
  datatype Manifest = Manifest(segments: seq<SegRec>, tombstones: set<gostring>, seqFloor: nat)

  /** wal holds the entries of all log files in order; sealed files may linger after a flush. */
  datatype Shard = Shard(
    manifest: Manifest,
    wal: seq<LogEntry>,
    buffer: map<gostring, Content>,
    tombstones: set<gostring>,
    nextSeq: nat)

  // ----- the manifest

  function MaxFlushSeq(segments: seq<SegRec>): (m: nat)
    ensures forall i :: 0 <= i < |segments| ==> segments[i].flushSeq <= m
    ensures m == 0 || exists i :: 0 <= i < |segments| && segments[i].flushSeq == m
  {
    if segments == [] then 0 else
      var m := MaxFlushSeq(segments[..|segments| - 1]);
      var f := segments[|segments| - 1].flushSeq;
      if f > m then f else m
  }

  function HighWater(m: Manifest): (h: nat)
    ensures h >= m.seqFloor && forall i :: 0 <= i < |m.segments| ==> m.segments[i].flushSeq <= h
  {
    var h := MaxFlushSeq(m.segments);
    if m.seqFloor > h then m.seqFloor else h
  }

  // ----- what the shard holds, logically

  /** The newest of the first n segments that holds the document, -1 when none does. */
  function NewestHolder(segments: seq<SegRec>, d: gostring, n: nat): (i: int)
    requires n <= |segments|
    ensures -1 <= i < n
    ensures i >= 0 ==> d in segments[i].docs && forall k :: 0 <= k < n && d in segments[k].docs ==> segments[k].flushSeq <= segments[i].flushSeq
    ensures i < 0 ==> forall k :: 0 <= k < n ==> d !in segments[k].docs
  {
    if n == 0 then -1 else
      var best := NewestHolder(segments, d, n - 1);
      if d in segments[n - 1].docs && (best < 0 || segments[n - 1].flushSeq > segments[best].flushSeq) then n - 1 else best
  }

  function InSegments(segments: seq<SegRec>, d: gostring): Option<Content> {
    var i := NewestHolder(segments, d, |segments|);
    if i >= 0 then Some(segments[i].docs[d]) else None
  }

  /** A document's content: none when tombstoned, else the buffer's, else the newest segment's. */
  function Lookup(s: Shard, d: gostring): Option<Content> {
    if d in s.tombstones then None
    else if d in s.buffer then Some(s.buffer[d])
    else InSegments(s.manifest.segments, d)
  }

  // ----- operations

  /** Log the document, clear its tombstone in memory and on disk, buffer it. */
  function IndexDoc(s: Shard, d: gostring, c: Content): Shard {
    s.(wal := s.wal + [LogEntry(s.nextSeq, Index(c), d)], nextSeq := s.nextSeq + 1,
       tombstones := s.tombstones - {d},
       manifest := if d in s.tombstones then s.manifest.(tombstones := s.manifest.tombstones - {d}) else s.manifest,
       buffer := s.buffer[d := c])
  }

  /** Log the delete and record the tombstone in memory and on disk. */
  function DeleteDoc(s: Shard, d: gostring): Shard {
    s.(wal := s.wal + [LogEntry(s.nextSeq, Delete, d)], nextSeq := s.nextSeq + 1,
       tombstones := s.tombstones + {d},
       manifest := s.manifest.(tombstones := s.manifest.tombstones + {d}))
  }

  /** A foreground flush: nothing when the buffer is empty; lingers says the sealed log could not be removed. */
  function Flush(s: Shard, lingers: bool): Shard {
    if s.buffer == map[] then s
    else
      s.(manifest := s.manifest.(segments := s.manifest.segments + [SegRec(if s.nextSeq > 0 then s.nextSeq - 1 else 0, s.buffer)]),
         buffer := map[], wal := if lingers then s.wal else [])
  }

  /** Everything is wiped; the reset takes the next sequence number, which becomes the floor. */
  function Reset(s: Shard): Shard {
    s.(manifest := Manifest([], {}, if s.nextSeq > s.manifest.seqFloor then s.nextSeq else s.manifest.seqFloor),
       wal := [], buffer := map[], tombstones := {}, nextSeq := s.nextSeq + 1)
  }

  // ----- restart

  /** replayEntryLocked. */
  function ReplayEntry(s: Shard, e: LogEntry): Shard {
    match e.op
    case Index(c) =>
      s.(tombstones := s.tombstones - {e.docID},
         manifest := if e.docID in s.tombstones then s.manifest.(tombstones := s.manifest.tombstones - {e.docID}) else s.manifest,
         buffer := s.buffer[e.docID := c])
    case Delete => s.(tombstones := s.tombstones + {e.docID})
  }

  function Replay(s: Shard, entries: seq<LogEntry>): Shard {
    if entries == [] then s else ReplayEntry(Replay(s, entries[..|entries| - 1]), entries[|entries| - 1])
  }

  /** The entries above a sequence number, in order. */
  function Above(wal: seq<LogEntry>, h: nat): seq<LogEntry> {
    if wal == [] then [] else
      var e := wal[|wal| - 1];
      Above(wal[..|wal| - 1], h) + if e.seqNo > h then [e] else []
  }

  function MaxSeen(wal: seq<LogEntry>): (m: nat)
    ensures forall i :: 0 <= i < |wal| ==> wal[i].seqNo <= m
    ensures m == 0 || exists i :: 0 <= i < |wal| && wal[i].seqNo == m
  {
    if wal == [] then 0 else
      var m := MaxSeen(wal[..|wal| - 1]);
      var q := wal[|wal| - 1].seqNo;
      if q > m then q else m
  }

  /** The next sequence number a restart settles on. */
  function NextAfter(maxSeen: nat, highWater: nat): nat {
    var n := if maxSeen >= 1 then maxSeen + 1 else 1;
    if highWater >= n then highWater + 1 else n
  }

  /** LoadFromMeta after a crash: only the manifest and the log of the old state count. */
  function Recover(s: Shard): Shard {
    var h := HighWater(s.manifest);
    Replay(Shard(s.manifest, s.wal, map[], s.manifest.tombstones, 1), Above(s.wal, h)).(nextSeq := NextAfter(MaxSeen(s.wal), h))
  }

  // ----- merges

  /** The inputs of a merge, by sequence number, and the rest. */
  function Inputs(segments: seq<SegRec>, chosen: set<nat>): (r: seq<SegRec>)
    ensures forall x :: x in r <==> x in segments && x.flushSeq in chosen
  {
    if segments == [] then [] else
      Inputs(segments[..|segments| - 1], chosen)
      + if segments[|segments| - 1].flushSeq in chosen then [segments[|segments| - 1]] else []
  }

  function Others(segments: seq<SegRec>, chosen: set<nat>): (r: seq<SegRec>)
    ensures forall x :: x in r <==> x in segments && x.flushSeq !in chosen
  {
    if segments == [] then [] else
      Others(segments[..|segments| - 1], chosen)
      + if segments[|segments| - 1].flushSeq !in chosen then [segments[|segments| - 1]] else []
  }

  function AllDocs(segments: seq<SegRec>): (ids: set<gostring>)
    ensures forall d :: d in ids <==> exists x :: x in segments && d in x.docs
  {
    if segments == [] then {} else
      var rest := AllDocs(segments[..|segments| - 1]);
      var last := segments[|segments| - 1];
      assert segments == segments[..|segments| - 1] + [last];
      rest + last.docs.Keys
  }

  /** The newest input's version of every document that is not tombstoned. */
  function MergedDocs(inputs: seq<SegRec>, tombstones: set<gostring>): map<gostring, Content> {
    map d | d in AllDocs(inputs) && d !in tombstones && NewestHolder(inputs, d, |inputs|) >= 0 ::
      inputs[NewestHolder(inputs, d, |inputs|)].docs[d]
  }

  /** Tombstones of documents an input holds are purged: they are gone from the output. */
  function Purged(inputs: seq<SegRec>, tombstones: set<gostring>): set<gostring> {
    set d | d in tombstones && d in AllDocs(inputs)
  }

  /** The output takes the inputs' place with their highest sequence number. */
  function Merge(s: Shard, chosen: set<nat>): Shard {
    var inputs := Inputs(s.manifest.segments, chosen);
    var out := SegRec(MaxFlushSeq(inputs), MergedDocs(inputs, s.tombstones));
    var purged := Purged(inputs, s.tombstones);
    s.(manifest := s.manifest.(segments := Others(s.manifest.segments, chosen) + [out], tombstones := s.manifest.tombstones - purged),
       tombstones := s.tombstones - purged)
  }
}
