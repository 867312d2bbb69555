/** Crash recovery of one shard (internal/shard/wal.go, segmentmanager.go, flush.go): when it keeps what the shard holds. */
module ShardRecovery {
  import opened Options
  import opened Bits
  import opened ShardModel
  import opened ShardSequence

  // ----- what a stretch of log says of a document

  /** The last entry's operation for d. */
  function LastOp(es: seq<LogEntry>, d: gostring): Option<LogOp> {
    if es == [] then None
    else if es[|es| - 1].docID == d then Some(es[|es| - 1].op)
    else LastOp(es[..|es| - 1], d)
  }

  /** The last indexed content of d. */
  function LastIndex(es: seq<LogEntry>, d: gostring): Option<Content> {
    if es == [] then None
    else if es[|es| - 1].docID == d && es[|es| - 1].op.Index? then Some(es[|es| - 1].op.content)
    else LastIndex(es[..|es| - 1], d)
  }

  lemma Snoc(es: seq<LogEntry>, e: LogEntry, d: gostring)
    ensures LastOp(es + [e], d) == if e.docID == d then Some(e.op) else LastOp(es, d)
    ensures LastIndex(es + [e], d) == if e.docID == d && e.op.Index? then Some(e.op.content) else LastIndex(es, d)
  {
    assert (es + [e])[..|es|] == es;
  }

  lemma {:induction false} IndexedHasOp(es: seq<LogEntry>, d: gostring)
    ensures LastIndex(es, d).Some? ==> LastOp(es, d).Some?
    ensures LastOp(es, d).Some? && LastOp(es, d).value.Index? ==> LastIndex(es, d) == Some(LastOp(es, d).value.content)
  {
    if es != [] { IndexedHasOp(es[..|es| - 1], d); }
  }

  /** What replay leaves of one document. */
  ghost predicate Replayed(s: Shard, es: seq<LogEntry>, r: Shard, d: gostring) {
    && (d in r.buffer <==> LastIndex(es, d).Some? || d in s.buffer)
    && (LastIndex(es, d).Some? ==> r.buffer[d] == LastIndex(es, d).value)
    && (d in r.tombstones <==> if LastOp(es, d).Some? then LastOp(es, d).value.Delete? else d in s.tombstones)
    && (d in r.manifest.tombstones <==> d in s.manifest.tombstones && LastIndex(es, d).None?)
  }

  /** Replay starting from tombstones that memory and manifest agree on. */
  lemma {:induction false} ReplayIs(s: Shard, es: seq<LogEntry>, d: gostring)
    requires s.tombstones == s.manifest.tombstones
    ensures Replayed(s, es, Replay(s, es), d)
    ensures d in Replay(s, es).manifest.tombstones ==> d in Replay(s, es).tombstones
  {
    if es != [] {
      ReplayIs(s, es[..|es| - 1], d);
      IndexedHasOp(es[..|es| - 1], d);
    }
  }

  // ----- disk and memory agree

  ghost function Tail(s: Shard): seq<LogEntry> {
    Above(s.wal, HighWater(s.manifest))
  }

  /** Neither the buffer nor a segment has the document, so it reads as absent, tombstone or not. */
  ghost predicate Gone(s: Shard, d: gostring) {
    d !in s.buffer && forall x :: x in s.manifest.segments ==> d !in x.docs
  }

  /**
   The buffer is what the unflushed log says. The tombstones are what the log
   and the manifest say, but for documents that nothing holds: a merge purges
   theirs, also when the log still has the delete.
   */
  ghost predicate DocInSync(s: Shard, d: gostring) {
    && (d in s.buffer <==> LastIndex(Tail(s), d).Some?)
    && (d in s.buffer ==> s.buffer[d] == LastIndex(Tail(s), d).value)
    && (LastOp(Tail(s), d).Some? && LastOp(Tail(s), d).value.Index? ==> d !in s.tombstones)
    && (LastOp(Tail(s), d) == Some(Delete) ==> d in s.tombstones || Gone(s, d))
    && (d in s.manifest.tombstones ==> d in s.tombstones)
    && (d in s.tombstones && d !in s.manifest.tombstones ==> Gone(s, d))
  }

  ghost predicate InSync(s: Shard) {
    forall d :: DocInSync(s, d)
  }

  lemma AboveSnoc(wal: seq<LogEntry>, e: LogEntry, h: nat)
    ensures Above(wal + [e], h) == Above(wal, h) + if e.seqNo > h then [e] else []
  {
    assert (wal + [e])[..|wal|] == wal;
  }

  lemma {:induction false} NothingAbove(wal: seq<LogEntry>, h: nat)
    requires forall i :: 0 <= i < |wal| ==> wal[i].seqNo <= h
    ensures Above(wal, h) == []
  {
    if wal != [] { NothingAbove(wal[..|wal| - 1], h); }
  }

  lemma WriteInSync(s: Shard, op: Op)
    requires SeqInv(s) && InSync(s) && (op.IndexOp? || op.DeleteOp?)
    ensures InSync(Do(s, op))
  {
    hide SeqInv, HighWater, Above, LastOp, LastIndex;
    NextIsAbove(s);
    WriteKeeps(s, op);
    var s' := Do(s, op);
    var e := LogEntry(s.nextSeq, if op.IndexOp? then Index(op.c) else Delete, op.d);
    AboveSnoc(s.wal, e, HighWater(s.manifest));
    forall d ensures DocInSync(s', d) {
      assert DocInSync(s, d);
      Snoc(Tail(s), e, d);
    }
  }

  lemma FlushInSync(s: Shard, lingers: bool)
    requires SeqInv(s) && InSync(s)
    ensures InSync(Flush(s, lingers))
  {
    hide SeqInv, HighWater, Above;
    NextIsAbove(s);
    FlushKeeps(s, lingers);
    var s' := Flush(s, lingers);
    if s.buffer != map[] {
      NothingAbove(s'.wal, s.nextSeq - 1);
      forall d ensures DocInSync(s', d) { assert DocInSync(s, d); }
    }
  }

  lemma ResetInSync(s: Shard)
    requires SeqInv(s)
    ensures InSync(Reset(s))
  {
    hide SeqInv, HighWater;
    forall d ensures DocInSync(Reset(s), d) {
      assert Tail(Reset(s)) == [];
    }
  }

  lemma InitialInSync()
    ensures InSync(Initial())
  {
  }

  // ----- one crash

  /**
   Recovery brings back buffer, segments and numbering. The tombstones are those
   of the log's last operations, else of the manifest; they are the ones before
   the crash but for documents that nothing holds. Of those on disk, the ones
   of documents it re-indexed are gone.
   */
  lemma RecoverIs(s: Shard, d: gostring)
    requires SeqInv(s) && InSync(s)
    ensures var r := Recover(s);
            && r.wal == s.wal && r.nextSeq == s.nextSeq && r.manifest.segments == s.manifest.segments && r.manifest.seqFloor == s.manifest.seqFloor
            && (d in r.buffer <==> d in s.buffer) && (d in s.buffer ==> r.buffer[d] == s.buffer[d])
            && (d in r.tombstones <==> if LastOp(Tail(s), d).Some? then LastOp(Tail(s), d).value.Delete? else d in s.manifest.tombstones)
            && ((d in r.tombstones <==> d in s.tombstones) || Gone(s, d))
            && (d in r.manifest.tombstones <==> d in s.manifest.tombstones && LastIndex(Tail(s), d).None?)
  {
    hide SeqInv, HighWater, Above, LastOp, LastIndex;
    RestartKeeps(s);
    var s0 := Shard(s.manifest, s.wal, map[], s.manifest.tombstones, 1);
    ReplayKeepsNumbers(s0, Tail(s));
    ReplayIs(s0, Tail(s), d);
    IndexedHasOp(Tail(s), d);
    assert DocInSync(s, d);
  }

  lemma GoneReads(s: Shard, d: gostring)
    requires Gone(s, d)
    ensures InSegments(s.manifest.segments, d) == None
  {
    hide NewestHolder;
  }

  /** After one crash and one recovery every document reads as before. */
  lemma RecoveryPreserves(s: Shard, d: gostring)
    requires SeqInv(s) && InSync(s)
    ensures Lookup(Recover(s), d) == Lookup(s, d)
  {
    hide SeqInv, InSync, Recover, LastIndex, InSegments, LastOp, Tail;
    RecoverIs(s, d);
    if Gone(s, d) { GoneReads(s, d); }
  }

  /** Indexed in the unflushed log and deleted after that. */
  ghost predicate IndexedThenDeleted(s: Shard, d: gostring) {
    LastIndex(Tail(s), d).Some? && LastOp(Tail(s), d) == Some(Delete)
  }

  /** When no such document is replayed, what recovery leaves on disk fits its memory again. */
  lemma RestartInSync(s: Shard)
    requires SeqInv(s) && InSync(s) && forall d :: !IndexedThenDeleted(s, d)
    ensures InSync(Recover(s))
  {
    hide SeqInv, Recover, LastIndex, LastOp, HighWater, Above;
    RestartKeeps(s);
    forall d ensures DocInSync(Recover(s), d) {
      RecoverIs(s, d);
      IndexedHasOp(Tail(s), d);
      assert DocInSync(s, d);
      assert !IndexedThenDeleted(s, d);
    }
  }

  // ----- flushes

  /** A segment flushed after all others is the newest holder of its documents. */
  lemma NewestSnoc(segments: seq<SegRec>, r: SegRec, d: gostring)
    requires forall i :: 0 <= i < |segments| ==> segments[i].flushSeq < r.flushSeq
    ensures InSegments(segments + [r], d) == if d in r.docs then Some(r.docs[d]) else InSegments(segments, d)
  {
    HolderPrefix(segments, r, d, |segments|);
  }

  lemma {:induction false} HolderPrefix(segments: seq<SegRec>, r: SegRec, d: gostring, n: nat)
    requires n <= |segments|
    ensures NewestHolder(segments + [r], d, n) == NewestHolder(segments, d, n)
  {
    if n > 0 { HolderPrefix(segments, r, d, n - 1); }
  }

  /** A flush moves documents from the buffer to a segment and nothing reads differently. */
  lemma FlushPreserves(s: Shard, lingers: bool, d: gostring)
    requires SeqInv(s)
    ensures Lookup(Flush(s, lingers), d) == Lookup(s, d)
  {
    hide NewestHolder, InSegments, Increasing, DistinctSeqs, MaxSeen;
    if s.buffer != map[] {
      NewestSnoc(s.manifest.segments, SegRec(s.nextSeq - 1, s.buffer), d);
    }
  }

  // ----- a second crash

  /** Recover, flush, crash, recover. */
  function SecondRecovery(s: Shard, lingers: bool): Shard {
    Recover(Flush(Recover(s), lingers))
  }

  /** What the second recovery finds when the first one filled the buffer. */
  lemma SecondIs(s: Shard, lingers: bool, d: gostring)
    requires SeqInv(s) && InSync(s) && s.buffer != map[]
    ensures Lookup(SecondRecovery(s, lingers), d)
         == if d in s.tombstones && LastIndex(Tail(s), d).None? then None
            else if d in s.buffer then Some(s.buffer[d]) else InSegments(s.manifest.segments, d)
  {
    hide SeqInv, InSegments, LastIndex, HighWater, Above, LastOp, NextAfter, MaxSeen;
    var r := Recover(s);
    RecoverIs(s, d);
    assert DocInSync(s, d);
    if Gone(s, d) { GoneReads(s, d); }
    SameBuffer(s);
    RestartKeeps(s);
    FlushKeeps(r, lingers);
    var f := Flush(r, lingers);
    NextIsAbove(r);
    NothingAbove(f.wal, HighWater(f.manifest));
    var again := Shard(f.manifest, f.wal, map[], f.manifest.tombstones, 1);
    assert Replay(again, []) == again;
    SegmentsBelow(r);
    NewestSnoc(r.manifest.segments, SegRec(r.nextSeq - 1, r.buffer), d);
  }

  lemma SegmentsBelow(s: Shard)
    requires SeqInv(s) && s.buffer != map[]
    ensures s.nextSeq > 0 && forall i :: 0 <= i < |s.manifest.segments| ==> s.manifest.segments[i].flushSeq < s.nextSeq - 1
  {
  }

  lemma SameBuffer(s: Shard)
    requires SeqInv(s) && InSync(s)
    ensures Recover(s).buffer == s.buffer
  {
    hide SeqInv, InSync, Recover, LastIndex;
    var r := Recover(s);
    forall d ensures d in r.buffer <==> d in s.buffer { RecoverIs(s, d); }
    assert r.buffer.Keys == s.buffer.Keys;
    forall d | d in r.buffer ensures r.buffer[d] == s.buffer[d] { RecoverIs(s, d); }
  }

  /** With nothing to flush the second recovery starts from the same disk again. */
  lemma SecondWithoutFlush(s: Shard, lingers: bool, d: gostring)
    requires SeqInv(s) && InSync(s) && s.buffer == map[]
    ensures Lookup(SecondRecovery(s, lingers), d) == Lookup(s, d)
  {
    hide SeqInv, InSegments, LastIndex, LastOp, HighWater, Above, Recover, Tail;
    SameBuffer(s);
    RestartKeeps(s);
    forall x ensures !IndexedThenDeleted(s, x) { assert DocInSync(s, x); }
    RestartInSync(s);
    RecoveryPreserves(Recover(s), d);
    RecoveryPreserves(s, d);
  }

  /**
   A second crash, after the recovered buffer was flushed, keeps what the shard
   holds exactly when no document was indexed and then deleted in the log that
   the first recovery replayed: its tombstone was removed from disk when the
   index entry was replayed and put back in memory only.
   */
  lemma SecondCrash(s: Shard, lingers: bool)
    requires SeqInv(s) && InSync(s)
    ensures (forall d :: Lookup(SecondRecovery(s, lingers), d) == Lookup(s, d)) <==> (forall d :: !IndexedThenDeleted(s, d))
  {
    hide SeqInv, InSegments, LastIndex, LastOp, Tail, SecondRecovery;
    forall d ensures Lookup(SecondRecovery(s, lingers), d) == Lookup(s, d) <==> !IndexedThenDeleted(s, d) {
      assert DocInSync(s, d);
      IndexedHasOp(Tail(s), d);
      if Gone(s, d) { GoneReads(s, d); }
      if s.buffer == map[] {
        SecondWithoutFlush(s, lingers, d);
      } else {
        SecondIs(s, lingers, d);
      }
    }
  }

  /** The shortest case: index a document, delete it, and crash twice around a flush; it is back. */
  lemma DeletedDocReturns(d: gostring, c: Content)
    ensures var s := Exec([IndexOp(d, c), DeleteOp(d)]);
            Lookup(s, d) == None && Lookup(SecondRecovery(s, false), d) == Some(c)
  {
    hide Exec, SeqInv, InSync, SecondRecovery, Recover, IndexDoc, DeleteDoc, InSegments, LastIndex, Tail;
    var ops := [IndexOp(d, c), DeleteOp(d)];
    assert Exec(ops) == Do(Do(Initial(), ops[0]), ops[1]) by { TwoSteps(ops[0], ops[1]); }
    InitialOk();
    InitialInSync();
    WriteInSync(Initial(), ops[0]);
    WriteKeeps(Initial(), ops[0]);
    WriteInSync(Do(Initial(), ops[0]), ops[1]);
    WriteKeeps(Do(Initial(), ops[0]), ops[1]);
    IndexedDeleted(d, c);
    SecondIs(Exec(ops), false, d);
  }

  lemma TwoSteps(first: Op, second: Op)
    ensures Exec([first, second]) == Do(Do(Initial(), first), second)
  {
    hide Do;
    assert [first, second][..1] == [first] && [first][..0] == [];
    assert Exec([first]) == Do(Exec([]), first);
  }

  lemma IndexedDeleted(d: gostring, c: Content)
    ensures var s := DeleteDoc(IndexDoc(Initial(), d, c), d);
            d in s.buffer && s.buffer[d] == c && d in s.tombstones && LastIndex(Tail(s), d) == Some(c)
  {
    var s := DeleteDoc(IndexDoc(Initial(), d, c), d);
    var e, f := LogEntry(1, Index(c), d), LogEntry(2, Delete, d);
    assert s.wal == [] + [e] + [f] && HighWater(s.manifest) == 0;
    AboveSnoc([], e, 0);
    AboveSnoc([] + [e], f, 0);
    Snoc([], e, d);
    Snoc([] + [e], f, d);
  }
}
