/** Sequence numbers across every operation of a shard (internal/shard, internal/storage/manifest.go). */
module ShardSequence {
  import opened Options
  import opened Bits
  import opened ShardModel

  datatype Op =
    | IndexOp(d: gostring, c: Content)
    | DeleteOp(d: gostring)
    | FlushOp(lingers: bool)
    | ResetOp
    | MergeOp(chosen: set<nat>)
    | Restart

  /** A merge has inputs. */
  ghost predicate Allowed(s: Shard, op: Op) {
    op.MergeOp? ==> Inputs(s.manifest.segments, op.chosen) != []
  }

  function Do(s: Shard, op: Op): Shard {
    match op
    case IndexOp(d, c) => IndexDoc(s, d, c)
    case DeleteOp(d) => DeleteDoc(s, d)
    case FlushOp(lingers) => Flush(s, lingers)
    case ResetOp => Reset(s)
    case MergeOp(chosen) => Merge(s, chosen)
    case Restart => Recover(s)
  }

  function Initial(): Shard {
    Shard(Manifest([], {}, 0), [], map[], {}, 1)
  }

  /** A run from the empty shard. */
  function Exec(ops: seq<Op>): Shard {
    if ops == [] then Initial() else Do(Exec(ops[..|ops| - 1]), ops[|ops| - 1])
  }

  ghost predicate Increasing(wal: seq<LogEntry>) {
    forall i, j :: 0 <= i < j < |wal| ==> wal[i].seqNo < wal[j].seqNo
  }

  ghost predicate DistinctSeqs(segments: seq<SegRec>) {
    forall i, j :: 0 <= i < j < |segments| ==> segments[i].flushSeq != segments[j].flushSeq
  }

  /** The next number is the one after everything logged, flushed or reset; a filled buffer has logged entries above the mark. */
  ghost predicate SeqInv(s: Shard) {
    && Increasing(s.wal) && DistinctSeqs(s.manifest.segments)
    && s.nextSeq == NextAfter(MaxSeen(s.wal), HighWater(s.manifest))
    && (s.buffer != map[] ==> HighWater(s.manifest) + 1 < s.nextSeq)
  }

  lemma NextIsAbove(s: Shard)
    requires SeqInv(s)
    ensures HighWater(s.manifest) < s.nextSeq && forall i :: 0 <= i < |s.wal| ==> s.wal[i].seqNo < s.nextSeq
  {
  }

  lemma MaxSeenSnoc(wal: seq<LogEntry>, e: LogEntry)
    ensures MaxSeen(wal + [e]) == if e.seqNo > MaxSeen(wal) then e.seqNo else MaxSeen(wal)
  {
    assert (wal + [e])[..|wal|] == wal;
  }

  lemma MaxFlushSnoc(segments: seq<SegRec>, r: SegRec)
    ensures MaxFlushSeq(segments + [r]) == if r.flushSeq > MaxFlushSeq(segments) then r.flushSeq else MaxFlushSeq(segments)
  {
    assert (segments + [r])[..|segments|] == segments;
  }

  /** Writing: the new entry takes nextSeq, which nothing used. */
  lemma WriteKeeps(s: Shard, op: Op)
    requires SeqInv(s) && (op.IndexOp? || op.DeleteOp?)
    ensures SeqInv(Do(s, op)) && HighWater(Do(s, op).manifest) == HighWater(s.manifest)
    ensures Do(s, op).nextSeq == s.nextSeq + 1 && Do(s, op).wal == s.wal + [Do(s, op).wal[|s.wal|]] && Do(s, op).wal[|s.wal|].seqNo == s.nextSeq
  {
    hide MaxSeen, MaxFlushSeq, Increasing;
    NextIsAbove(s);
    var e := LogEntry(s.nextSeq, if op.IndexOp? then Index(op.c) else Delete, op.d);
    MaxSeenSnoc(s.wal, e);
    IncreasingSnoc(s.wal, e);
  }

  lemma IncreasingSnoc(wal: seq<LogEntry>, e: LogEntry)
    requires Increasing(wal) && forall i :: 0 <= i < |wal| ==> wal[i].seqNo < e.seqNo
    ensures Increasing(wal + [e])
  {
  }

  lemma FlushKeeps(s: Shard, lingers: bool)
    requires SeqInv(s)
    ensures SeqInv(Flush(s, lingers)) && HighWater(Flush(s, lingers).manifest) >= HighWater(s.manifest)
    ensures Flush(s, lingers).nextSeq == s.nextSeq
    ensures s.buffer != map[] ==> HighWater(Flush(s, lingers).manifest) == s.nextSeq - 1
  {
    hide MaxSeen, MaxFlushSeq, Increasing, DistinctSeqs;
    NextIsAbove(s);
    NoneLogged();
    if s.buffer != map[] {
      var r := SegRec(s.nextSeq - 1, s.buffer);
      MaxFlushSnoc(s.manifest.segments, r);
      DistinctSnoc(s.manifest.segments, r);
    }
  }

  lemma NoneLogged()
    ensures Increasing([]) && MaxSeen([]) == 0
  {
  }

  lemma DistinctSnoc(segments: seq<SegRec>, r: SegRec)
    requires DistinctSeqs(segments) && forall i :: 0 <= i < |segments| ==> segments[i].flushSeq != r.flushSeq
    ensures DistinctSeqs(segments + [r])
  {
  }

  lemma ResetKeeps(s: Shard)
    requires SeqInv(s)
    ensures SeqInv(Reset(s)) && HighWater(Reset(s).manifest) == s.nextSeq > HighWater(s.manifest) && Reset(s).nextSeq == s.nextSeq + 1
  {
    NextIsAbove(s);
  }

  // ----- merges

  lemma {:induction false} OthersDistinct(segments: seq<SegRec>, chosen: set<nat>)
    requires DistinctSeqs(segments)
    ensures DistinctSeqs(Others(segments, chosen))
  {
    if segments != [] {
      var init, last := segments[..|segments| - 1], segments[|segments| - 1];
      OthersDistinct(init, chosen);
      var r := Others(init, chosen);
      forall i | 0 <= i < |r| ensures r[i].flushSeq != last.flushSeq {
        assert r[i] in init;
      }
    }
  }

  /** The output's number is an input's, so the others do not have it and the maximum stays. */
  lemma MergeNumbers(segments: seq<SegRec>, chosen: set<nat>, out: SegRec)
    requires Inputs(segments, chosen) != [] && out.flushSeq == MaxFlushSeq(Inputs(segments, chosen))
    ensures out.flushSeq == 0 || out.flushSeq in chosen
    ensures MaxFlushSeq(Others(segments, chosen) + [out]) == MaxFlushSeq(segments)
  {
    hide Inputs, Others, MaxFlushSeq;
    var ins, rest := Inputs(segments, chosen), Others(segments, chosen);
    var all := MaxFlushSeq(segments);
    MaxFlushSnoc(rest, out);
    MaxWithin(segments, ins);
    MaxWithin(segments, rest);
    if all > 0 {
      var i :| 0 <= i < |segments| && segments[i].flushSeq == all;
      MaxReached(segments, chosen, segments[i]);
    }
  }

  lemma MaxWithin(segments: seq<SegRec>, part: seq<SegRec>)
    requires forall x :: x in part ==> x in segments
    ensures MaxFlushSeq(part) <= MaxFlushSeq(segments)
  {
    hide MaxFlushSeq;
    if MaxFlushSeq(part) > 0 {
      var i :| 0 <= i < |part| && part[i].flushSeq == MaxFlushSeq(part);
      assert part[i] in segments;
    }
  }

  lemma MaxReached(segments: seq<SegRec>, chosen: set<nat>, x: SegRec)
    requires x in segments
    ensures x.flushSeq <= MaxFlushSeq(Inputs(segments, chosen)) || x.flushSeq <= MaxFlushSeq(Others(segments, chosen))
  {
    hide MaxFlushSeq, Inputs, Others;
    if x.flushSeq in chosen { assert x in Inputs(segments, chosen); } else { assert x in Others(segments, chosen); }
  }

  lemma MergeKeeps(s: Shard, chosen: set<nat>)
    requires SeqInv(s) && Inputs(s.manifest.segments, chosen) != []
    ensures SeqInv(Merge(s, chosen)) && HighWater(Merge(s, chosen).manifest) == HighWater(s.manifest) && Merge(s, chosen).nextSeq == s.nextSeq
  {
    hide Inputs, Others, MaxFlushSeq, MergedDocs, Purged, MaxSeen, Increasing;
    var segments := s.manifest.segments;
    var ins, rest := Inputs(segments, chosen), Others(segments, chosen);
    var out := SegRec(MaxFlushSeq(ins), MergedDocs(ins, s.tombstones));
    MergeNumbers(segments, chosen, out);
    OthersDistinct(segments, chosen);
    OutputIsNew(segments, chosen, out);
  }

  lemma OutputIsNew(segments: seq<SegRec>, chosen: set<nat>, out: SegRec)
    requires DistinctSeqs(segments) && Inputs(segments, chosen) != [] && out.flushSeq == MaxFlushSeq(Inputs(segments, chosen))
    ensures forall i :: 0 <= i < |Others(segments, chosen)| ==> Others(segments, chosen)[i].flushSeq != out.flushSeq
  {
    hide Inputs, Others, MaxFlushSeq;
    var ins, rest := Inputs(segments, chosen), Others(segments, chosen);
    forall i | 0 <= i < |rest| ensures rest[i].flushSeq != out.flushSeq {
      assert rest[i] in rest;
      assert ins[0] in ins;
      if out.flushSeq == 0 { assert ins[0].flushSeq == 0; }
    }
  }

  // ----- restarts

  lemma {:induction false} ReplayKeepsNumbers(s: Shard, es: seq<LogEntry>)
    ensures var r := Replay(s, es);
            r.wal == s.wal && r.manifest.segments == s.manifest.segments && r.manifest.seqFloor == s.manifest.seqFloor && r.nextSeq == s.nextSeq
    ensures es == [] ==> Replay(s, es).buffer == s.buffer
  {
    if es != [] { ReplayKeepsNumbers(s, es[..|es| - 1]); }
  }

  /** Replay takes exactly the log's entries above the mark, in the log's order. */
  lemma {:induction false} AboveIs(wal: seq<LogEntry>, h: nat)
    requires Increasing(wal)
    ensures Increasing(Above(wal, h))
    ensures forall e :: e in Above(wal, h) <==> e in wal && e.seqNo > h
  {
    if wal != [] {
      var init, last := wal[..|wal| - 1], wal[|wal| - 1];
      AboveIs(init, h);
      assert wal == init + [last];
      var a := Above(init, h);
      forall i | 0 <= i < |a| ensures a[i].seqNo < last.seqNo {
        assert a[i] in init;
      }
    }
  }

  lemma RestartKeeps(s: Shard)
    requires SeqInv(s)
    ensures SeqInv(Recover(s)) && HighWater(Recover(s).manifest) == HighWater(s.manifest) && Recover(s).nextSeq == s.nextSeq
    ensures Recover(s).wal == s.wal
  {
    var h := HighWater(s.manifest);
    var tail := Above(s.wal, h);
    ReplayKeepsNumbers(Shard(s.manifest, s.wal, map[], s.manifest.tombstones, 1), tail);
    AboveIs(s.wal, h);
    if tail != [] { assert tail[0] in tail; }
  }

  // ----- every operation, every run

  /** Neither the high-water mark nor the next number ever goes back, and the invariant stays. */
  lemma NeverRewinds(s: Shard, op: Op)
    requires SeqInv(s) && Allowed(s, op)
    ensures SeqInv(Do(s, op)) && HighWater(Do(s, op).manifest) >= HighWater(s.manifest) && Do(s, op).nextSeq >= s.nextSeq
  {
    hide SeqInv, IndexDoc, DeleteDoc, Flush, Reset, Merge, Recover, HighWater;
    match op {
      case IndexOp(_, _) => WriteKeeps(s, op);
      case DeleteOp(_) => WriteKeeps(s, op);
      case FlushOp(lingers) => FlushKeeps(s, lingers);
      case ResetOp => ResetKeeps(s);
      case MergeOp(chosen) => MergeKeeps(s, chosen);
      case Restart => RestartKeeps(s);
    }
  }

  ghost predicate IsRun(states: seq<Shard>, ops: seq<Op>) {
    && |states| == |ops| + 1 && states[0] == Initial()
    && forall i :: 0 <= i < |ops| ==> Allowed(states[i], ops[i]) && states[i + 1] == Do(states[i], ops[i])
  }

  /** Over any run: numbers never go back, and each stays above the mark and above everything in the log. */
  lemma {:induction false} RunNeverRewinds(states: seq<Shard>, ops: seq<Op>, i: nat, j: nat)
    requires IsRun(states, ops) && i <= j < |states|
    ensures SeqInv(states[j]) && HighWater(states[i].manifest) <= HighWater(states[j].manifest) && states[i].nextSeq <= states[j].nextSeq
    ensures HighWater(states[j].manifest) < states[j].nextSeq && forall k :: 0 <= k < |states[j].wal| ==> states[j].wal[k].seqNo < states[j].nextSeq
    decreases j
  {
    hide SeqInv, Do, Allowed, HighWater;
    if j == 0 {
      InitialOk();
    } else {
      var before := j - 1;
      RunNeverRewinds(states, ops, if i <= before then i else before, before);
      assert states[before + 1] == Do(states[before], ops[before]);
      NeverRewinds(states[before], ops[before]);
    }
    NextIsAbove(states[j]);
  }

  lemma InitialOk()
    ensures SeqInv(Initial())
  {
  }
}
