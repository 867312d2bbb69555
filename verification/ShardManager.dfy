/**
 The shard manifest (internal/storage/manifest.go) and the shard itself
 (internal/shard/segmentmanager.go, flush.go, wal.go, merge.go) as objects whose
 operations take the steps of the model.
 */
module ShardManager {
  import opened Bits
  import opened ShardModel
  import opened ShardSequence

  /** The persistent catalog of a shard; every mutation is saved before it returns. */
  class ShardMeta {
    var Segments: seq<SegRec>
    var Tombstones: seq<gostring>
    var SeqFloor: nat

    function State(): Manifest
      reads this
    {
      Manifest(Segments, (set t | t in Tombstones), SeqFloor)
    }

    /** One record per deleted document. */
    ghost predicate Valid()
      reads this
    {
      forall i, j :: 0 <= i < j < |Tombstones| ==> Tombstones[i] != Tombstones[j]
    }

    constructor ()
      ensures Valid() && State() == Manifest([], {}, 0)
    {
      Segments, Tombstones, SeqFloor := [], [], 0;
    }

    method AddSegment(seg: SegRec)
      requires Valid()
      modifies this`Segments
      ensures Valid() && State() == old(State()).(segments := old(Segments) + [seg])
    {
      Segments := Segments + [seg];
    }

    /** The output goes in and the inputs go out in one save. */
    method AddThenRemoveSegments(newSeg: SegRec, removeIDs: set<nat>)
      requires Valid()
      modifies this`Segments
      ensures Valid() && State() == old(State()).(segments := Others(old(Segments), removeIDs) + [newSeg])
    {
      var kept := [];
      for i := 0 to |Segments|
        invariant Segments == old(Segments) && kept == Others(Segments[..i], removeIDs)
      {
        assert Segments[..i + 1][..i] == Segments[..i];
        if Segments[i].flushSeq !in removeIDs {
          kept := kept + [Segments[i]];
        }
      }
      assert Segments[..|Segments|] == Segments;
      Segments := kept + [newSeg];
    }

    method SeqHighWater() returns (hw: nat)
      ensures hw == HighWater(State())
    {
      hw := MaxSeqOf(Segments);
      if SeqFloor > hw {
        hw := SeqFloor;
      }
    }

    /** Raises the floor, never lowers it. */
    method SetSeqFloor(seqNo: nat)
      requires Valid()
      modifies this`SeqFloor
      ensures Valid() && State() == old(State()).(seqFloor := if seqNo > old(SeqFloor) then seqNo else old(SeqFloor))
    {
      if seqNo <= SeqFloor {
        return;
      }
      SeqFloor := seqNo;
    }

    /** The records of other documents. */
    method Without(docID: gostring) returns (out: seq<gostring>)
      requires Valid()
      ensures forall t :: t in out <==> t in Tombstones && t != docID
      ensures forall i, j :: 0 <= i < j < |out| ==> out[i] != out[j]
    {
      out := [];
      for i := 0 to |Tombstones|
        invariant forall t :: t in out <==> t in Tombstones[..i] && t != docID
        invariant forall i, j :: 0 <= i < j < |out| ==> out[i] != out[j]
      {
        assert Tombstones[..i + 1] == Tombstones[..i] + [Tombstones[i]] && Tombstones[i] !in Tombstones[..i];
        if Tombstones[i] != docID {
          out := out + [Tombstones[i]];
        }
      }
      assert Tombstones[..|Tombstones|] == Tombstones;
    }

    method AddTombstone(docID: gostring)
      requires Valid()
      modifies this`Tombstones
      ensures Valid() && State() == old(State()).(tombstones := old(State()).tombstones + {docID})
    {
      var out := Without(docID);
      Tombstones := out + [docID];
      assert State().tombstones == old(State()).tombstones + {docID};
    }

    method RemoveTombstone(docID: gostring)
      requires Valid()
      modifies this`Tombstones
      ensures Valid() && State() == old(State()).(tombstones := old(State()).tombstones - {docID})
    {
      var out := Without(docID);
      Tombstones := out;
      assert State().tombstones == old(State()).tombstones - {docID};
    }

    method Reset()
      modifies this`Segments, this`Tombstones
      ensures Valid() && State() == Manifest([], {}, old(SeqFloor))
    {
      Segments, Tombstones := [], [];
    }
  }

  /** A shard: manifest, log files, buffer, tombstones and the next sequence number. */
  class SegmentManager {
    const meta: ShardMeta
    var wal: seq<LogEntry>
    var buffer: map<gostring, Content>
    var bufferDocs: nat
    var tombstones: set<gostring>
    var nextSeq: nat

    ghost function State(): Shard
      reads this, meta
    {
      Shard(meta.State(), wal, buffer, tombstones, nextSeq)
    }

    ghost predicate Valid()
      reads this, meta
    {
      meta.Valid() && (bufferDocs == 0 <==> buffer == map[]) && nextSeq > 0
    }

    constructor (meta: ShardMeta, wal: seq<LogEntry>)
      requires meta.Valid()
      ensures Valid() && this.meta == meta && this.wal == wal && buffer == map[] && tombstones == {} && nextSeq == 1
    {
      this.meta, this.wal := meta, wal;
      buffer, bufferDocs, tombstones, nextSeq := map[], 0, {}, 1;
    }

    /** Number the entry and append it to the log. */
    method WriteEntry(op: LogOp, docID: gostring) returns (seqNo: nat)
      requires Valid()
      modifies this`wal, this`nextSeq
      ensures Valid() && seqNo == old(nextSeq) && nextSeq == seqNo + 1 && wal == old(wal) + [LogEntry(seqNo, op, docID)]
    {
      seqNo := nextSeq;
      nextSeq := nextSeq + 1;
      wal := wal + [LogEntry(seqNo, op, docID)];
    }

    /** A re-indexed document is no longer deleted, in memory and on disk. */
    method AddDocToBuffer(docID: gostring, content: Content)
      requires Valid()
      modifies this`tombstones, this`buffer, this`bufferDocs, meta`Tombstones
      ensures Valid() && State() == ReplayEntry(old(State()), LogEntry(0, Index(content), docID))
    {
      if docID in tombstones {
        tombstones := tombstones - {docID};
        meta.RemoveTombstone(docID);
      }
      buffer := buffer[docID := content];
      bufferDocs := bufferDocs + 1;
      assert docID in buffer;
    }

    method IndexDocument(docID: gostring, content: Content)
      requires Valid()
      modifies this, meta
      ensures Valid() && State() == IndexDoc(old(State()), docID, content)
      ensures wal == old(wal) + [LogEntry(old(nextSeq), Index(content), docID)] && nextSeq == old(nextSeq) + 1
      ensures buffer == old(buffer)[docID := content] && tombstones == old(tombstones) - {docID} && meta.Segments == old(meta.Segments)
    {
      var _ := WriteEntry(Index(content), docID);
      AddDocToBuffer(docID, content);
    }

    method DeleteDocument(docID: gostring)
      requires Valid()
      modifies this, meta
      ensures Valid() && State() == DeleteDoc(old(State()), docID)
      ensures wal == old(wal) + [LogEntry(old(nextSeq), Delete, docID)] && nextSeq == old(nextSeq) + 1 && docID in meta.Tombstones
      ensures tombstones == old(tombstones) + {docID} && buffer == old(buffer) && meta.Segments == old(meta.Segments)
    {
      var _ := WriteEntry(Delete, docID);
      tombstones := tombstones + {docID};
      meta.AddTombstone(docID);
    }

    /** Flush and rotate; removed says whether the sealed log file could be deleted. */
    method FlushBuffer(removed: bool)
      requires Valid()
      modifies this, meta
      ensures Valid() && State() == Flush(old(State()), !removed)
      ensures old(buffer) != map[] ==>
                buffer == map[] && meta.Segments == old(meta.Segments) + [SegRec(old(nextSeq) - 1, old(buffer))] && wal == if removed then [] else old(wal)
      ensures old(buffer) == map[] ==> buffer == map[] && meta.Segments == old(meta.Segments) && wal == old(wal)
      ensures tombstones == old(tombstones) && nextSeq == old(nextSeq)
    {
      if bufferDocs == 0 {
        return;
      }
      var flushSeq := nextSeq - 1;
      meta.AddSegment(SegRec(flushSeq, buffer));
      buffer, bufferDocs := map[], 0;
      if removed {
        wal := [];
      }
    }

    method ResetShard()
      requires Valid()
      modifies this, meta
      ensures Valid() && State() == Reset(old(State()))
      ensures wal == [] && buffer == map[] && tombstones == {} && meta.Segments == [] && meta.State().tombstones == {}
      ensures nextSeq == old(nextSeq) + 1 && meta.SeqFloor >= old(nextSeq) && meta.SeqFloor >= old(meta.SeqFloor)
    {
      wal := [];
      var resetSeq := nextSeq;
      nextSeq := nextSeq + 1;
      meta.Reset();
      meta.SetSeqFloor(resetSeq);
      buffer, bufferDocs, tombstones := map[], 0, {};
    }

    /** One replayed entry. */
    method Replay1(e: LogEntry)
      requires Valid()
      modifies this`tombstones, this`buffer, this`bufferDocs, meta`Tombstones
      ensures Valid() && State() == ReplayEntry(old(State()), e)
    {
      match e.op {
        case Index(content) => AddDocToBuffer(e.docID, content);
        case Delete => tombstones := tombstones + {e.docID};
      }
    }

    /** A fresh process: tombstones from the manifest, then the log's entries above the high-water mark in order. */
    method LoadFromMeta()
      requires Valid() && buffer == map[] && tombstones == {} && nextSeq == 1
      modifies this, meta
      ensures Valid() && State() == Recover(old(State()))
    {
      hide Replay, HighWater, MaxSeen, Above;
      tombstones := set t | t in meta.Tombstones;
      var highWater := meta.SeqHighWater();
      var maxSeen := ReplayWAL(highWater, State());
      if maxSeen >= nextSeq {
        nextSeq := maxSeen + 1;
      }
      if highWater >= nextSeq {
        nextSeq := highWater + 1;
      }
    }

    method ReplayWAL(highWater: nat, ghost s0: Shard) returns (maxSeen: nat)
      requires Valid() && State() == s0
      modifies this`tombstones, this`buffer, this`bufferDocs, meta`Tombstones
      ensures Valid() && State() == Replay(s0, Above(wal, highWater)) && maxSeen == MaxSeen(wal)
    {
      hide Replay, Above, MaxSeen, ReplayEntry, Valid, State;
      maxSeen := 0;
      NothingReplayed(s0, highWater);
      for i := 0 to |wal|
        invariant Valid() && State() == Replay(s0, Above(wal[..i], highWater)) && maxSeen == MaxSeen(wal[..i])
      {
        var e := wal[i];
        AboveStep(s0, wal[..i], e, highWater);
        assert wal[..i + 1] == wal[..i] + [e];
        if e.seqNo > maxSeen {
          maxSeen := e.seqNo;
        }
        if e.seqNo > highWater {
          Replay1(e);
        }
      }
      assert wal[..|wal|] == wal;
    }

    /** The tombstones this merge purges: their documents are in an input and not in the output. */
    method PurgedBy(inputs: seq<SegRec>, out: SegRec) returns (purged: set<gostring>)
      requires out.docs == MergedDocs(inputs, tombstones)
      ensures purged == Purged(inputs, tombstones)
    {
      hide AllDocs, NewestHolder;
      purged := {};
      var rest := tombstones;
      while rest != {}
        invariant rest <= tombstones && purged == Purged(inputs, tombstones - rest)
        decreases |rest|
      {
        var docID :| docID in rest;
        rest := rest - {docID};
        if docID !in out.docs {
          var held := AnyHolds(inputs, docID);
          if held {
            purged := purged + {docID};
          }
        }
      }
      assert tombstones - {} == tombstones;
    }

    /** Merge the chosen segments: output registered, inputs gone, tombstones of documents they held purged. */
    method ExecuteMerge(chosen: set<nat>)
      requires Valid()
      modifies this, meta
      ensures Valid() && State() == Merge(old(State()), chosen)
    {
      hide MaxFlushSeq, AllDocs, MergedDocs, NewestHolder, Inputs, Others, Purged;
      var inputs := Inputs(meta.Segments, chosen);
      var maxSeq := MaxSeqOf(inputs);
      var out := SegRec(maxSeq, MergedDocs(inputs, tombstones));
      var purged := PurgedBy(inputs, out);
      tombstones := tombstones - purged;
      var rest := purged;
      while rest != {}
        invariant Valid() && rest <= purged && wal == old(wal) && buffer == old(buffer) && nextSeq == old(nextSeq)
        invariant tombstones == old(tombstones) - purged
        invariant meta.State() == old(meta.State()).(tombstones := old(meta.State()).tombstones - (purged - rest))
        decreases |rest|
      {
        var docID :| docID in rest;
        meta.RemoveTombstone(docID);
        rest := rest - {docID};
        assert old(meta.State()).tombstones - (purged - rest)
            == old(meta.State()).tombstones - (purged - (rest + {docID})) - {docID};
      }
      assert purged - {} == purged;
      meta.AddThenRemoveSegments(out, chosen);
    }
  }

  /** The largest flush sequence number, 0 without segments. */
  method MaxSeqOf(segments: seq<SegRec>) returns (maxSeq: nat)
    ensures maxSeq == MaxFlushSeq(segments)
  {
    maxSeq := 0;
    for i := 0 to |segments|
      invariant maxSeq == MaxFlushSeq(segments[..i])
    {
      assert segments[..i + 1][..i] == segments[..i];
      if segments[i].flushSeq > maxSeq {
        maxSeq := segments[i].flushSeq;
      }
    }
    assert segments[..|segments|] == segments;
  }

  method AnyHolds(inputs: seq<SegRec>, docID: gostring) returns (held: bool)
    ensures held <==> docID in AllDocs(inputs)
  {
    hide AllDocs;
    for i := 0 to |inputs|
      invariant forall k :: 0 <= k < i ==> docID !in inputs[k].docs
    {
      if docID in inputs[i].docs {
        return true;
      }
    }
    held := false;
  }

  lemma NothingReplayed(s0: Shard, h: nat)
    ensures Replay(s0, Above([], h)) == s0 && MaxSeen([]) == 0
  {
  }

  lemma AboveStep(s0: Shard, wal: seq<LogEntry>, e: LogEntry, h: nat)
    ensures Replay(s0, Above(wal + [e], h)) == if e.seqNo > h then ReplayEntry(Replay(s0, Above(wal, h)), e) else Replay(s0, Above(wal, h))
    ensures MaxSeen(wal + [e]) == if e.seqNo > MaxSeen(wal) then e.seqNo else MaxSeen(wal)
  {
    hide ReplayEntry;
    assert (wal + [e])[..|wal|] == wal;
    var a := Above(wal, h);
    if e.seqNo > h {
      assert (a + [e])[..|a|] == a && (a + [e])[|a|] == e;
    } else {
      assert a + [] == a;
    }
  }
}
