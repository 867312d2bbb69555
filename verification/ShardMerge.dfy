/** When a merge keeps what the shard holds (internal/shard/merge.go). */
module ShardMerge {
  import opened Options
  import opened Bits
  import Collections
  import opened ShardModel
  import opened ShardSequence
  import opened ShardRecovery

  function Newest(segments: seq<SegRec>, d: gostring): Option<SegRec> {
    var i := NewestHolder(segments, d, |segments|);
    if i >= 0 then Some(segments[i]) else None
  }

  /**
   The merge of the chosen segments leaves document d as it reads. A deleted
   document loses its tombstone, so no copy may be left in the buffer or in
   another segment. A live one gets the inputs' highest number, so the newest
   copy outside must not be one that this number overtakes, unless it is older
   than the inputs' own or equal to it.
   */
  predicate DocSafe(s: Shard, chosen: set<nat>, d: gostring) {
    var ins, rest := Inputs(s.manifest.segments, chosen), Others(s.manifest.segments, chosen);
    var inside, outside := Newest(ins, d), Newest(rest, d);
    inside.None?
    || (if d in s.tombstones then d !in s.buffer && outside.None?
        else d in s.buffer || outside.None?
             || outside.value.flushSeq < inside.value.flushSeq || outside.value.flushSeq > MaxFlushSeq(ins)
             || (d in outside.value.docs && d in inside.value.docs && outside.value.docs[d] == inside.value.docs[d]))
  }

  lemma NewestFacts(segments: seq<SegRec>, d: gostring)
    ensures Newest(segments, d).Some? ==>
              var x := Newest(segments, d).value;
              x in segments && d in x.docs && forall y :: y in segments && d in y.docs ==> y.flushSeq <= x.flushSeq
    ensures Newest(segments, d).None? ==> forall y :: y in segments ==> d !in y.docs
    ensures InSegments(segments, d) == if Newest(segments, d).Some? then Some(Newest(segments, d).value.docs[d]) else None
  {
    hide NewestHolder;
  }

  /** With distinct numbers the newest holder is the one nobody overtakes. */
  lemma NewestIs(segments: seq<SegRec>, d: gostring, x: SegRec)
    requires DistinctSeqs(segments) && x in segments && d in x.docs
    requires forall y :: y in segments && d in y.docs ==> y.flushSeq <= x.flushSeq
    ensures Newest(segments, d) == Some(x)
  {
    hide NewestHolder;
    var i := NewestHolder(segments, d, |segments|);
    var j :| 0 <= j < |segments| && segments[j] == x;
    assert segments[i] in segments;
  }

  lemma NoneHolds(segments: seq<SegRec>, d: gostring)
    requires forall i :: 0 <= i < |segments| ==> d !in segments[i].docs
    ensures Newest(segments, d) == None
  {
    hide NewestHolder;
  }

  /** Before a merge the newest holder is the newer of the inputs' and the others'. */
  lemma NewestBefore(segments: seq<SegRec>, chosen: set<nat>, d: gostring)
    requires DistinctSeqs(segments)
    ensures var inside, outside := Newest(Inputs(segments, chosen), d), Newest(Others(segments, chosen), d);
            Newest(segments, d) ==
              if inside.None? then outside
              else if outside.None? || outside.value.flushSeq < inside.value.flushSeq then inside else outside
  {
    hide NewestHolder, Newest, Inputs, Others, DistinctSeqs, InSegments;
    var ins, rest := Inputs(segments, chosen), Others(segments, chosen);
    NewestFacts(ins, d);
    NewestFacts(rest, d);
    forall y | y in segments ensures y in ins || y in rest {
    }
    if Newest(ins, d).None? && Newest(rest, d).None? {
      NoneHolds(segments, d);
    } else if Newest(ins, d).None? || (Newest(rest, d).Some? && Newest(rest, d).value.flushSeq >= Newest(ins, d).value.flushSeq) {
      NewestIs(segments, d, Newest(rest, d).value);
    } else {
      NewestIs(segments, d, Newest(ins, d).value);
    }
  }

  lemma OutputDocs(ins: seq<SegRec>, tombstones: set<gostring>, d: gostring)
    ensures d in MergedDocs(ins, tombstones) <==> Newest(ins, d).Some? && d !in tombstones
    ensures d in MergedDocs(ins, tombstones) ==> MergedDocs(ins, tombstones)[d] == Newest(ins, d).value.docs[d]
  {
    hide NewestHolder;
    NewestFacts(ins, d);
  }

  /** After a merge the newest holder is the newer of the output and the others'. */
  lemma NewestAfter(segments: seq<SegRec>, chosen: set<nat>, out: SegRec, d: gostring)
    requires DistinctSeqs(segments) && Inputs(segments, chosen) != [] && out.flushSeq == MaxFlushSeq(Inputs(segments, chosen))
    ensures var outside := Newest(Others(segments, chosen), d);
            Newest(Others(segments, chosen) + [out], d) ==
              if d !in out.docs then outside
              else if outside.None? || outside.value.flushSeq < out.flushSeq then Some(out) else outside
    ensures var outside := Newest(Others(segments, chosen), d); outside.Some? ==> outside.value.flushSeq != out.flushSeq
  {
    hide NewestHolder, Newest, Inputs, Others, DistinctSeqs, InSegments, MaxFlushSeq;
    var rest := Others(segments, chosen);
    var after := rest + [out];
    OthersDistinct(segments, chosen);
    OutputIsNew(segments, chosen, out);
    AppendDistinct(rest, out);
    NewestFacts(rest, d);
    var outside := Newest(rest, d);
    if outside.Some? {
      var i :| 0 <= i < |rest| && rest[i] == outside.value;
    }
    if d in out.docs && (outside.None? || outside.value.flushSeq < out.flushSeq) {
      assert out in after;
      NewestIs(after, d, out);
    } else if outside.Some? {
      assert outside.value in after;
      NewestIs(after, d, outside.value);
    } else {
      NoneHolds(after, d);
    }
  }

  lemma AppendDistinct(rest: seq<SegRec>, out: SegRec)
    requires DistinctSeqs(rest) && forall i :: 0 <= i < |rest| ==> rest[i].flushSeq != out.flushSeq
    ensures DistinctSeqs(rest + [out])
  {
  }

  lemma InputsBelow(ins: seq<SegRec>, d: gostring)
    ensures Newest(ins, d).Some? ==> Newest(ins, d).value.flushSeq <= MaxFlushSeq(ins) && d in Newest(ins, d).value.docs
    ensures Newest(ins, d).Some? <==> d in AllDocs(ins)
  {
    hide NewestHolder, MaxFlushSeq, AllDocs;
    NewestFacts(ins, d);
    if Newest(ins, d).Some? {
      var i :| 0 <= i < |ins| && ins[i] == Newest(ins, d).value;
    }
  }

  /** A merge leaves a document as it reads exactly when the document is safe. */
  lemma MergeKeepsDoc(s: Shard, chosen: set<nat>, d: gostring)
    requires SeqInv(s) && Inputs(s.manifest.segments, chosen) != []
    ensures Lookup(Merge(s, chosen), d) == Lookup(s, d) <==> DocSafe(s, chosen, d)
  {
    hide NewestHolder, Newest, Inputs, Others, InSegments, MaxFlushSeq, MergedDocs, AllDocs;
    var segments := s.manifest.segments;
    var ins, rest := Inputs(segments, chosen), Others(segments, chosen);
    var out := SegRec(MaxFlushSeq(ins), MergedDocs(ins, s.tombstones));
    SeqDistinct(s);
    hide SeqInv;
    NewestBefore(segments, chosen, d);
    NewestAfter(segments, chosen, out, d);
    OutputDocs(ins, s.tombstones, d);
    InputsBelow(ins, d);
    NewestFacts(segments, d);
    NewestFacts(rest, d);
    NewestFacts(rest + [out], d);
  }

  lemma SeqDistinct(s: Shard)
    requires SeqInv(s)
    ensures DistinctSeqs(s.manifest.segments)
  {
  }

  /** A merge keeps everything the shard holds exactly when every document is safe. */
  lemma MergePreserves(s: Shard, chosen: set<nat>)
    requires SeqInv(s) && Inputs(s.manifest.segments, chosen) != []
    ensures (forall d :: Lookup(Merge(s, chosen), d) == Lookup(s, d)) <==> (forall d :: DocSafe(s, chosen, d))
  {
    hide SeqInv, DocSafe, Lookup, Merge;
    forall d ensures Lookup(Merge(s, chosen), d) == Lookup(s, d) <==> DocSafe(s, chosen, d) {
      MergeKeepsDoc(s, chosen, d);
    }
  }

  /** Inputs adjacent in flush order: no other segment lies between them. */
  ghost predicate Adjacent(segments: seq<SegRec>, chosen: set<nat>) {
    forall x, y :: x in Inputs(segments, chosen) && y in Others(segments, chosen) ==>
      y.flushSeq < x.flushSeq || y.flushSeq > MaxFlushSeq(Inputs(segments, chosen))
  }

  /** Merging neighbours is safe when no deleted document keeps a copy elsewhere. */
  lemma AdjacentIsSafe(s: Shard, chosen: set<nat>, d: gostring)
    requires Adjacent(s.manifest.segments, chosen)
    requires d in s.tombstones ==> d !in s.buffer && d !in AllDocs(Others(s.manifest.segments, chosen))
    ensures DocSafe(s, chosen, d)
  {
    hide NewestHolder, Newest, Inputs, Others, InSegments, MaxFlushSeq, AllDocs;
    var ins, rest := Inputs(s.manifest.segments, chosen), Others(s.manifest.segments, chosen);
    NewestFacts(ins, d);
    NewestFacts(rest, d);
  }

  /** After a merge that is safe for every document, a restart still finds what memory holds. */
  lemma MergeInSync(s: Shard, chosen: set<nat>)
    requires SeqInv(s) && InSync(s) && Inputs(s.manifest.segments, chosen) != [] && forall d :: DocSafe(s, chosen, d)
    ensures InSync(Merge(s, chosen))
  {
    hide SeqInv, DocSafe, Inputs, Others, MaxFlushSeq, MergedDocs, AllDocs, LastIndex, LastOp, HighWater, Above;
    MergeKeeps(s, chosen);
    forall d ensures DocInSync(Merge(s, chosen), d) {
      assert DocInSync(s, d) && DocSafe(s, chosen, d);
      MergeLeaves(s, chosen, d);
    }
  }

  /** A document that nothing holds stays so, and a purged one is held by nothing. */
  lemma MergeLeaves(s: Shard, chosen: set<nat>, d: gostring)
    requires DocSafe(s, chosen, d)
    ensures Gone(s, d) ==> Gone(Merge(s, chosen), d)
    ensures d in s.tombstones && d in AllDocs(Inputs(s.manifest.segments, chosen)) ==> Gone(Merge(s, chosen), d)
  {
    hide Newest, NewestHolder, Inputs, Others, MaxFlushSeq, MergedDocs, AllDocs;
    var ins, rest := Inputs(s.manifest.segments, chosen), Others(s.manifest.segments, chosen);
    OutputDocs(ins, s.tombstones, d);
    NewestFacts(ins, d);
    NewestFacts(rest, d);
  }

  // ----- what an unsafe merge loses

  /** A copy outside that is newer than the inputs', but not than their highest number, is overtaken by theirs. */
  lemma CopyOvertaken(s: Shard, chosen: set<nat>, d: gostring, inside: SegRec, outside: SegRec)
    requires SeqInv(s) && d !in s.tombstones && d !in s.buffer
    requires inside in Inputs(s.manifest.segments, chosen) && outside in Others(s.manifest.segments, chosen) && d in inside.docs && d in outside.docs
    requires forall y :: y in Inputs(s.manifest.segments, chosen) && d in y.docs ==> y.flushSeq <= inside.flushSeq
    requires forall y :: y in s.manifest.segments && d in y.docs ==> y.flushSeq <= outside.flushSeq
    requires outside.flushSeq <= MaxFlushSeq(Inputs(s.manifest.segments, chosen))
    ensures Lookup(s, d) == Some(outside.docs[d]) && Lookup(Merge(s, chosen), d) == Some(inside.docs[d])
  {
    hide NewestHolder, Newest, Inputs, Others, InSegments, MaxFlushSeq, MergedDocs, AllDocs, DistinctSeqs;
    var segments := s.manifest.segments;
    var ins, rest := Inputs(segments, chosen), Others(segments, chosen);
    var out := SegRec(MaxFlushSeq(ins), MergedDocs(ins, s.tombstones));
    SeqDistinct(s);
    hide SeqInv;
    OthersDistinct(segments, chosen);
    InputsDistinct(segments, chosen);
    NewestIs(segments, d, outside);
    NewestIs(rest, d, outside);
    NewestIs(ins, d, inside);
    OutputDocs(ins, s.tombstones, d);
    NewestAfter(segments, chosen, out, d);
    NewestFacts(segments, d);
    NewestFacts(rest + [out], d);
  }

  lemma {:induction false} InputsDistinct(segments: seq<SegRec>, chosen: set<nat>)
    requires DistinctSeqs(segments)
    ensures DistinctSeqs(Inputs(segments, chosen))
  {
    if segments != [] {
      var init, last := segments[..|segments| - 1], segments[|segments| - 1];
      InputsDistinct(init, chosen);
      var r := Inputs(init, chosen);
      forall i | 0 <= i < |r| ensures r[i].flushSeq != last.flushSeq {
        assert r[i] in init;
      }
    }
  }

  /** Once an input's purge took the tombstone, the newest copy outside is found again. */
  lemma PurgedReturns(s: Shard, chosen: set<nat>, d: gostring, outside: SegRec)
    requires SeqInv(s) && d in s.tombstones && d !in s.buffer && d in AllDocs(Inputs(s.manifest.segments, chosen))
    requires outside in Others(s.manifest.segments, chosen) && d in outside.docs
    requires forall y :: y in Others(s.manifest.segments, chosen) && d in y.docs ==> y.flushSeq <= outside.flushSeq
    ensures Lookup(s, d) == None && Lookup(Merge(s, chosen), d) == Some(outside.docs[d])
  {
    hide NewestHolder, Newest, Inputs, Others, InSegments, MaxFlushSeq, MergedDocs, AllDocs, DistinctSeqs;
    var segments := s.manifest.segments;
    var ins, rest := Inputs(segments, chosen), Others(segments, chosen);
    var out := SegRec(MaxFlushSeq(ins), MergedDocs(ins, s.tombstones));
    SeqDistinct(s);
    hide SeqInv;
    OthersDistinct(segments, chosen);
    NewestIs(rest, d, outside);
    OutputDocs(ins, s.tombstones, d);
    NewestAfter(segments, chosen, out, d);
    NewestFacts(rest + [out], d);
  }

  // ----- shards that writes and flushes lead to

  lemma WrittenAndFlushed(segments: seq<SegRec>, n: nat, d: gostring, c: Content)
    ensures Flush(IndexDoc(Shard(Manifest(segments, {}, 0), [], map[], {}, n), d, c), false)
         == Shard(Manifest(segments + [SegRec(n, map[d := c])], {}, 0), [], map[], {}, n + 1)
  {
    var s := IndexDoc(Shard(Manifest(segments, {}, 0), [], map[], {}, n), d, c);
    assert s.buffer == map[d := c] && d in s.buffer && s.tombstones == {};
  }

  /** Old text of one document, its newer text, and n - 2 times another document, flushed one by one. */
  function Backlog(a: gostring, b: gostring, old': Content, new': Content, n: nat): (segments: seq<SegRec>)
    ensures |segments| == n && forall i :: 0 <= i < n ==> segments[i] == BacklogAt(a, b, old', new', i + 1)
  {
    if n == 0 then [] else Backlog(a, b, old', new', n - 1) + [BacklogAt(a, b, old', new', n)]
  }

  function BacklogAt(a: gostring, b: gostring, old': Content, new': Content, n: nat): SegRec {
    SegRec(n, if n == 1 then map[a := old'] else if n == 2 then map[a := new'] else map[b := old'])
  }

  function BacklogOps(a: gostring, b: gostring, old': Content, new': Content, n: nat): seq<Op> {
    if n == 0 then [] else
      BacklogOps(a, b, old', new', n - 1) + [if n == 1 then IndexOp(a, old') else if n == 2 then IndexOp(a, new') else IndexOp(b, old'), FlushOp(false)]
  }

  function BacklogShard(a: gostring, b: gostring, old': Content, new': Content, n: nat): Shard {
    Shard(Manifest(Backlog(a, b, old', new', n), {}, 0), [], map[], {}, n + 1)
  }

  lemma ExecTwo(ops: seq<Op>, first: Op, second: Op)
    ensures Exec(ops + [first, second]) == Do(Do(Exec(ops), first), second)
  {
    hide Do;
    var all := ops + [first, second];
    assert all[..|ops| + 1] == ops + [first] && (ops + [first])[..|ops|] == ops;
    assert Exec(ops + [first]) == Do(Exec(ops), first);
  }

  lemma {:induction false} BacklogReached(a: gostring, b: gostring, old': Content, new': Content, n: nat)
    ensures Exec(BacklogOps(a, b, old', new', n)) == BacklogShard(a, b, old', new', n)
  {
    hide Exec, Flush, IndexDoc;
    if n == 0 {
      assert Exec([]) == Initial() by { NothingRun(); }
    } else {
      BacklogReached(a, b, old', new', n - 1);
      var d, c := if n <= 2 then a else b, if n == 2 then new' else old';
      ExecTwo(BacklogOps(a, b, old', new', n - 1), IndexOp(d, c), FlushOp(false));
      WrittenAndFlushed(Backlog(a, b, old', new', n - 1), n, d, c);
    }
  }

  lemma NothingRun()
    ensures Exec([]) == Initial()
  {
  }

  /** A shard with segments and at most one entry above them. */
  lemma OnlySegments(s: Shard)
    requires s.buffer == map[] && s.manifest.seqFloor == 0 && DistinctSeqs(s.manifest.segments)
    requires var m := MaxFlushSeq(s.manifest.segments);
             (s.wal == [] && s.nextSeq == m + 1) || (|s.wal| == 1 && s.wal[0].seqNo == m + 1 && s.nextSeq == m + 2)
    ensures SeqInv(s)
  {
    hide MaxFlushSeq, MaxSeen, DistinctSeqs;
    NothingSeen();
    if |s.wal| == 1 {
      MaxSeenSnoc([], s.wal[0]);
      assert s.wal == [] + [s.wal[0]];
    }
  }

  lemma NothingSeen()
    ensures MaxSeen([]) == 0
  {
  }

  lemma BacklogInOrder(a: gostring, b: gostring, old': Content, new': Content, n: nat)
    ensures SeqInv(BacklogShard(a, b, old', new', n))
  {
    hide MaxFlushSeq, Backlog, SeqInv;
    var segments := Backlog(a, b, old', new', n);
    var m := MaxFlushSeq(segments);
    if n > 0 { assert segments[n - 1].flushSeq == n; }
    OnlySegments(BacklogShard(a, b, old', new', n));
  }

  /** A merge that takes the old text and something flushed last, but not the newer text, brings the old text back. */
  lemma StaleCopyWins(a: gostring, b: gostring, old': Content, new': Content, n: nat, chosen: set<nat>, last: nat)
    requires a != b && 1 in chosen && 2 !in chosen && last in chosen && 2 < last <= n
    ensures var s := BacklogShard(a, b, old', new', n);
            SeqInv(s) && Lookup(s, a) == Some(new') && Lookup(Merge(s, chosen), a) == Some(old')
  {
    hide Inputs, Others, MaxFlushSeq, Merge, Lookup, SeqInv, Backlog;
    var s := BacklogShard(a, b, old', new', n);
    var segments := s.manifest.segments;
    BacklogInOrder(a, b, old', new', n);
    var ins := Inputs(segments, chosen);
    assert segments[0] in ins && segments[1] in Others(segments, chosen) && segments[last - 1] in ins;
    var k :| 0 <= k < |ins| && ins[k] == segments[last - 1];
    CopyOvertaken(s, chosen, a, segments[0], segments[1]);
  }

  /** Two documents written twice, flushed both times; then the first is deleted. */
  function DeletedTwice(a: gostring, b: gostring, old': Content, new': Content): Shard {
    Shard(Manifest([SegRec(2, map[a := old', b := old']), SegRec(4, map[a := new', b := new'])], {a}, 0), [LogEntry(5, Delete, a)], map[], {a}, 6)
  }

  /** Four writes, two flushes and a delete lead there. */
  lemma DeletedTwiceReached(a: gostring, b: gostring, old': Content, new': Content)
    ensures var once := Flush(IndexDoc(IndexDoc(Initial(), a, old'), b, old'), false);
            DeletedTwice(a, b, old', new') == DeleteDoc(Flush(IndexDoc(IndexDoc(once, a, new'), b, new'), false), a)
  {
    hide Flush, IndexDoc;
    var x, y := SegRec(2, map[a := old', b := old']), SegRec(4, map[a := new', b := new']);
    BothFlushed([], 1, a, b, old');
    BothFlushed([x], 3, a, b, new');
    assert [] + [x] == [x] && [x] + [y] == [x, y] && {} + {a} == {a};
  }

  lemma BothFlushed(segments: seq<SegRec>, n: nat, a: gostring, b: gostring, c: Content)
    ensures Flush(IndexDoc(IndexDoc(Shard(Manifest(segments, {}, 0), [], map[], {}, n), a, c), b, c), false)
         == Shard(Manifest(segments + [SegRec(n + 1, map[a := c, b := c])], {}, 0), [], map[], {}, n + 2)
  {
    hide Flush;
    var s := IndexDoc(IndexDoc(Shard(Manifest(segments, {}, 0), [], map[], {}, n), a, c), b, c);
    assert s.buffer == map[a := c, b := c] && s.tombstones == {};
    FlushOf(s, a);
  }

  lemma FlushOf(s: Shard, d: gostring)
    requires d in s.buffer && s.nextSeq > 0
    ensures Flush(s, false) == s.(manifest := s.manifest.(segments := s.manifest.segments + [SegRec(s.nextSeq - 1, s.buffer)]), buffer := map[], wal := [])
  {
  }

  lemma DeletedInOrder(a: gostring, b: gostring, old': Content, new': Content)
    ensures SeqInv(DeletedTwice(a, b, old', new'))
  {
    hide MaxFlushSeq, SeqInv;
    var segments := DeletedTwice(a, b, old', new').manifest.segments;
    assert segments[1].flushSeq == 4;
    OnlySegments(DeletedTwice(a, b, old', new'));
  }

  /**
   Merging one of the two segments purges the tombstone, and the other's text of
   the deleted document is found again; the live one reads as before.
   */
  lemma PurgeRevives(a: gostring, b: gostring, old': Content, new': Content, chosen: set<nat>)
    requires a != b && (2 in chosen <==> 4 !in chosen)
    ensures var s := DeletedTwice(a, b, old', new');
            && SeqInv(s) && Inputs(s.manifest.segments, chosen) != []
            && Lookup(s, a) == None && Lookup(Merge(s, chosen), a) == Some(if 2 in chosen then new' else old')
            && Lookup(s, b) == Lookup(Merge(s, chosen), b) == Some(new')
  {
    hide Inputs, Others, MaxFlushSeq, Merge, Lookup, SeqInv, DocSafe, AllDocs;
    var s := DeletedTwice(a, b, old', new');
    var x, y := s.manifest.segments[0], s.manifest.segments[1];
    DeletedInOrder(a, b, old', new');
    var merged, kept := if 2 in chosen then x else y, if 2 in chosen then y else x;
    assert merged in Inputs(s.manifest.segments, chosen) && kept in Others(s.manifest.segments, chosen);
    PurgedReturns(s, chosen, a, kept);
    LiveStays(s, chosen, b, x, y);
  }

  /** A document in both of two segments reads the newer one's text, whichever is merged. */
  lemma LiveStays(s: Shard, chosen: set<nat>, b: gostring, x: SegRec, y: SegRec)
    requires SeqInv(s) && s.manifest.segments == [x, y] && x.flushSeq < y.flushSeq && (x.flushSeq in chosen <==> y.flushSeq !in chosen)
    requires b in x.docs && b in y.docs && b !in s.tombstones && b !in s.buffer
    ensures Lookup(s, b) == Lookup(Merge(s, chosen), b) == Some(y.docs[b])
  {
    hide Inputs, Others, MaxFlushSeq, Merge, Newest, NewestHolder, InSegments, DistinctSeqs;
    SeqDistinct(s);
    hide SeqInv;
    var ins, rest := Inputs([x, y], chosen), Others([x, y], chosen);
    InputsDistinct([x, y], chosen);
    OthersDistinct([x, y], chosen);
    var merged, kept := if x.flushSeq in chosen then x else y, if x.flushSeq in chosen then y else x;
    assert merged in ins && kept in rest;
    NewestIs([x, y], b, y);
    NewestFacts([x, y], b);
    NewestIs(ins, b, merged);
    NewestIs(rest, b, kept);
    if x.flushSeq in chosen {
      assert forall k :: 0 <= k < |ins| ==> ins[k] in ins;
      assert MaxFlushSeq(ins) < y.flushSeq;
    }
    MergeKeepsDoc(s, chosen, b);
  }

  // ----- what the policy chooses

  /** The first segment that holds the document, |segments| when none does. */
  function FirstHolder(segments: seq<SegRec>, d: gostring): (i: nat)
    ensures i <= |segments| && (i < |segments| ==> d in segments[i].docs)
    ensures forall k :: 0 <= k < i ==> d !in segments[k].docs
  {
    if segments == [] || d in segments[0].docs then 0 else 1 + FirstHolder(segments[1..], d)
  }

  /** A delete is counted against the first segment that holds the document only. */
  function CountDelete(segments: seq<SegRec>, deleted: seq<nat>, d: gostring): (counts: seq<nat>)
    requires |deleted| == |segments|
    ensures |counts| == |segments|
  {
    var i := FirstHolder(segments, d);
    if i < |segments| then deleted[i := deleted[i] + 1] else deleted
  }

  /** With no tier over capacity: the segments of which a quarter is deleted, by their counters. */
  function SelectExpunge(segments: seq<SegRec>, deleted: seq<nat>): set<nat>
    requires |deleted| == |segments|
  {
    set i | 0 <= i < |segments| && |segments[i].docs| > 0 && 4 * deleted[i] >= |segments[i].docs| :: segments[i].flushSeq
  }

  /**
   What the background merge does by itself with a document that was updated and
   deleted: the delete is counted against the older segment, that segment alone
   is chosen, its merge purges the tombstone, and the newer text is found again.
   */
  lemma ExpungeRevives(a: gostring, b: gostring, old': Content, new': Content)
    requires a != b
    ensures var s := DeletedTwice(a, b, old', new');
            var segments := s.manifest.segments;
            && SeqInv(s) && Lookup(s, a) == None
            && SelectExpunge(segments, CountDelete(segments, [0, 0], a)) == {2}
            && Inputs(segments, {2}) != [] && Lookup(Merge(s, {2}), a) == Some(new') && Lookup(Merge(s, {2}), b) == Some(new')
  {
    hide Merge, Inputs, SeqInv, SelectExpunge, CountDelete, Lookup;
    var s := DeletedTwice(a, b, old', new');
    OlderIsChosen(s.manifest.segments[0], s.manifest.segments[1], a);
    PurgeRevives(a, b, old', new', {2});
  }

  lemma OlderIsChosen(x: SegRec, y: SegRec, a: gostring)
    requires x.flushSeq == 2 && |x.docs| == 2 && |y.docs| == 2 && a in x.docs
    ensures SelectExpunge([x, y], CountDelete([x, y], [0, 0], a)) == {2}
  {
    assert FirstHolder([x, y], a) == 0 && CountDelete([x, y], [0, 0], a) == [1, 0];
    assert [x, y][0].flushSeq == 2;
    forall f ensures f in SelectExpunge([x, y], [1, 0]) <==> f == 2 {
      if f == 2 { assert 0 <= 0 < |[x, y]| && |[x, y][0].docs| > 0; }
    }
  }

  /** A size of 0 is unknown and counts as large. */
  function SizeOf(size: nat): nat {
    if size == 0 then 0x4000_0000_0000_0000 else size
  }

  /** A forced merge with more segments than it may keep takes the n smallest; the order of equal sizes is the library's. */
  ghost predicate ForceSelects(sizes: seq<nat>, n: nat, picked: set<nat>) {
    && (forall i :: i in picked ==> i < |sizes|) && |picked| == (if n < |sizes| then n else |sizes|)
    && forall i, j :: i in picked && 0 <= j < |sizes| && j !in picked ==> SizeOf(sizes[i]) <= SizeOf(sizes[j])
  }

  /** The sequence numbers of the segments picked. */
  function SeqsOf(segments: seq<SegRec>, picked: set<nat>): set<nat> {
    set i | i in picked && i < |segments| :: segments[i].flushSeq
  }

  /** The segments that are smaller than segment m, and those that are not larger. */
  ghost function Smaller(sizes: seq<nat>, m: nat): set<nat>
    requires m < |sizes|
  {
    set k: nat | k < |sizes| && SizeOf(sizes[k]) < SizeOf(sizes[m])
  }

  ghost function NotLarger(sizes: seq<nat>, m: nat): set<nat>
    requires m < |sizes|
  {
    set k: nat | k < |sizes| && SizeOf(sizes[k]) <= SizeOf(sizes[m])
  }

  /** Whatever the order of equal sizes: n smaller ones keep a segment out, and it is in when no more than n, itself included, are not larger. */
  lemma SmallestArePicked(sizes: seq<nat>, n: nat, picked: set<nat>, m: nat)
    requires ForceSelects(sizes, n, picked) && m < |sizes|
    ensures |Smaller(sizes, m)| >= n ==> m !in picked
    ensures |NotLarger(sizes, m)| <= n ==> m in picked
  {
    hide SizeOf;
    if m in picked {
      assert Smaller(sizes, m) + {m} <= picked;
      Collections.SubsetCount(Smaller(sizes, m) + {m}, picked);
    } else {
      assert picked + {m} <= NotLarger(sizes, m);
      Collections.SubsetCount(picked + {m}, NotLarger(sizes, m));
      Collections.SubsetCount(picked + {m}, Below(|sizes|));
    }
  }

  ghost function Below(n: nat): (r: set<nat>)
    ensures |r| == n && forall k: nat :: k in r <==> k < n
  {
    if n == 0 then {} else Below(n - 1) + {n - 1}
  }

  /**
   What a forced merge of any batch does, whatever order the library gives
   segments of one size: when a segment has the newest text of a document, n
   smaller ones, and a number below that of a picked one, its text is lost to
   that of the newest picked one.
   */
  lemma ForcedMergeLoses(s: Shard, sizes: seq<nat>, n: nat, picked: set<nat>, d: gostring, i: nat, m: nat, j: nat)
    requires SeqInv(s) && d !in s.tombstones && d !in s.buffer
    requires |sizes| == |s.manifest.segments| && ForceSelects(sizes, n, picked)
    requires i < |sizes| && m < |sizes| && j < |sizes|
    requires |Smaller(sizes, m)| >= n && |NotLarger(sizes, i)| <= n && |NotLarger(sizes, j)| <= n
    requires var segments := s.manifest.segments;
             && d in segments[i].docs && d in segments[m].docs && segments[m].flushSeq < segments[j].flushSeq
             && (forall k :: 0 <= k < |sizes| && d in segments[k].docs ==> segments[k].flushSeq <= segments[m].flushSeq)
             && (forall k :: k in picked && d in segments[k].docs ==> segments[k].flushSeq <= segments[i].flushSeq)
    ensures var segments := s.manifest.segments;
            Lookup(s, d) == Some(segments[m].docs[d]) && Lookup(Merge(s, SeqsOf(segments, picked)), d) == Some(segments[i].docs[d])
  {
    hide Inputs, Others, MaxFlushSeq, Merge, Lookup, SizeOf, Smaller, NotLarger, SeqsOf;
    var segments := s.manifest.segments;
    var chosen := SeqsOf(segments, picked);
    SeqDistinct(s);
    hide SeqInv;
    SmallestArePicked(sizes, n, picked, i);
    SmallestArePicked(sizes, n, picked, m);
    SmallestArePicked(sizes, n, picked, j);
    PickedAre(segments, picked);
    hide ForceSelects;
    var ins := Inputs(segments, chosen);
    assert segments[i] in ins && segments[j] in ins && segments[m] in Others(segments, chosen);
    var at :| 0 <= at < |ins| && ins[at] == segments[j];
    CopyOvertaken(s, chosen, d, segments[i], segments[m]);
  }

  lemma PickedAre(segments: seq<SegRec>, picked: set<nat>)
    requires DistinctSeqs(segments)
    ensures forall k :: 0 <= k < |segments| ==> (segments[k].flushSeq in SeqsOf(segments, picked) <==> k in picked)
  {
  }

  /** For every batch of two or more there is a run that gets there: a backlog of n + 1 segments, the newer text in the largest. */
  lemma EveryBatchLoses(a: gostring, b: gostring, old': Content, new': Content, sizes: seq<nat>, n: nat, picked: set<nat>)
    requires a != b && n >= 2 && |sizes| == n + 1 && ForceSelects(sizes, n, picked)
    requires forall k :: 0 <= k <= n && k != 1 ==> SizeOf(sizes[k]) < SizeOf(sizes[1])
    ensures var s := BacklogShard(a, b, old', new', n + 1);
            Lookup(s, a) == Some(new') && Lookup(Merge(s, SeqsOf(s.manifest.segments, picked)), a) == Some(old')
  {
    hide Merge, Lookup, SizeOf, Backlog, SeqInv, Below;
    var s := BacklogShard(a, b, old', new', n + 1);
    BacklogInOrder(a, b, old', new', n + 1);
    var most := Below(n + 1) - {1};
    assert Smaller(sizes, 1) == most;
    forall k | k == 0 || k == n ensures |NotLarger(sizes, k)| <= n {
      Collections.SubsetCount(NotLarger(sizes, k), most);
    }
    SmallestArePicked(sizes, n, picked, 1);
    forall k | k in picked && a in s.manifest.segments[k].docs ensures k == 0 {
    }
    hide ForceSelects, Smaller, NotLarger;
    ForcedMergeLoses(s, sizes, n, picked, a, 0, 1, n);
  }
}
