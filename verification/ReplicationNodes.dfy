/**
 The two ends of WAL replication (internal/replication) as the code keeps them,
 each operation tied to the step it takes.
 */
module ReplicationNodes {
  import opened Options
  import opened Bits
  import opened Replication
  import opened ReplicationRun
  import opened ReplicationSafety
  import opened ReplicationCatchUp

  class PrimaryReplicator {
    const ring: array<Option<WALEntry>>
    var head: nat
    var replicas: map<nat, seq<WALEntry>>
    var nextID: nat

    function State(): Primary
      reads this, ring
    {
      Primary(ring[..], head, replicas, nextID)
    }

    ghost predicate Valid()
      reads this, ring
    {
      Sized(State())
    }

    constructor ()
      ensures Valid() && fresh(ring)
      ensures State() == Primary(seq(RING_BUFFER_SIZE, _ => None), 0, map[], 0)
    {
      ring := new Option<WALEntry>[RING_BUFFER_SIZE](_ => None);
      head, replicas, nextID := 0, map[], 0;
    }

    /** The entry goes into the ring and to every channel that has room. */
    method Append(entry: WALEntry)
      requires Valid()
      modifies this, ring
      ensures Valid() && State() == FannedOut(Stored(old(State()), entry), entry)
      ensures ring[entry.seqNo % 10000] == Some(entry) && RingEntry(State(), entry.seqNo) == Some(entry)
      ensures forall k :: 0 <= k < 10000 && k != entry.seqNo % 10000 ==> ring[k] == old(ring[k])
      ensures replicas.Keys == old(replicas.Keys)
      ensures forall id :: id in replicas ==>
                replicas[id] == if |old(replicas)[id]| < 256 then old(replicas)[id] + [entry] else old(replicas)[id]
    {
      ring[entry.seqNo % RING_BUFFER_SIZE] := Some(entry);
      if entry.seqNo + 1 > head {
        head := entry.seqNo + 1;
      }
      FanOut(entry);
    }

    method FanOut(entry: WALEntry)
      requires Valid()
      modifies this`replicas
      ensures Valid() && State() == FannedOut(old(State()), entry)
    {
      var rest := replicas.Keys;
      ghost var before := replicas;
      while rest != {}
        invariant rest <= replicas.Keys == before.Keys
        invariant forall id :: id in rest ==> replicas[id] == before[id]
        invariant forall id :: id in before && id !in rest ==> replicas[id] == Offered(before[id], entry)
        decreases |rest|
      {
        var id :| id in rest;
        if |replicas[id]| < REPLICA_CHAN_SIZE {
          replicas := replicas[id := replicas[id] + [entry]];
        }
        rest := rest - {id};
      }
      assert replicas == map id | id in before :: Offered(before[id], entry);
    }

    method Register() returns (id: nat)
      requires Valid()
      modifies this`replicas, this`nextID
      ensures Valid() && State() == Registered(old(State())) && id == nextID
      ensures id !in old(replicas) && replicas == old(replicas)[id := []]
    {
      nextID := nextID + 1;
      id := nextID;
      replicas := replicas[id := []];
    }

    method Unregister(id: nat)
      requires Valid()
      modifies this`replicas
      ensures Valid() && State() == Unregistered(old(State()), id)
      ensures id !in replicas
      ensures forall i :: i != id ==> (i in replicas <==> i in old(replicas)) && (i in replicas ==> replicas[i] == old(replicas)[i])
    {
      replicas := map i | i in replicas && i != id :: replicas[i];
    }

    /** The highest sequence number known: the WAL's when there is one to ask, else the ring's, 0 when nothing was appended. */
    function HeadSeq(lastSeq: Option<nat>): (seqNo: nat)
      reads this
    {
      if lastSeq.Some? then lastSeq.value else if head == 0 then 0 else head - 1
    }
  }

  /**
   In every state of every run HeadSeq is the log's last number when the WAL can
   be asked; from the ring alone it is that number too once the append is in the
   ring, one less while it is not, and 0 while the ring is empty.
   */
  lemma HeadSeqIsTheLogs(states: seq<System>, actions: seq<Action>, known: bool, i: nat, p: PrimaryReplicator)
    requires IsRun(states, actions, known) && i < |states| && p.State() == states[i].primary
    ensures var n := |states[i].log|;
            && p.HeadSeq(Some(n)) == n
            && p.HeadSeq(None) == if p.head == 0 then 0 else if states[i].stage.InLog? then n - 1 else n
  {
    HeadTracksLog(states, actions, known, i);
  }

  // ----- one stream

  /** Forwarded entries are an exact stretch of the log. */
  ghost predicate Exact(log: seq<WALEntry>, fromSeq: nat, out: seq<WALEntry>, lastSent: nat) {
    IsLog(log) && fromSeq <= lastSent <= |log| && out == log[fromSeq..lastSent]
  }

  /** The send closure of streamToReplica. */
  method SendEntry(out0: seq<WALEntry>, lastSent0: nat, e: WALEntry, live: bool, ghost log: seq<WALEntry>, ghost fromSeq: nat)
    returns (out: seq<WALEntry>, lastSent: nat, status: Status)
    requires Exact(log, fromSeq, out0, lastSent0) && InTheLog(log, e)
    ensures Exact(log, fromSeq, out, lastSent) && lastSent0 <= lastSent
    ensures e.seqNo <= lastSent0 ==> status == OK && lastSent == lastSent0 && out == out0
    ensures e.seqNo == lastSent0 + 1 ==> status == OK && lastSent == e.seqNo && out == out0 + [e]
    ensures e.seqNo > lastSent0 + 1 ==> status == (if live then Unavailable else FailedPrecondition) && lastSent == lastSent0 && out == out0
    ensures Send(lastSent0, e, live) == if status != OK then Failed(status) else if lastSent == lastSent0 then Skipped else Forwarded
  {
    out, lastSent := out0, lastSent0;
    if e.seqNo <= lastSent {
      return out, lastSent, OK;
    }
    if e.seqNo != lastSent + 1 {
      return out, lastSent, if live then Unavailable else FailedPrecondition;
    }
    assert log[fromSeq..e.seqNo] == log[fromSeq..lastSent] + [e];
    return out + [e], e.seqNo, OK;
  }

  /** Every entry of a source comes from the log, in order. */
  ghost predicate InOrder(log: seq<WALEntry>, source: seq<WALEntry>) {
    && (forall i :: 0 <= i < |source| ==> InTheLog(log, source[i]))
    && (forall i, j :: 0 <= i < j < |source| ==> source[i].seqNo < source[j].seqNo)
  }

  lemma ScanStep(log: seq<WALEntry>, from: nat, source: seq<WALEntry>, i: nat)
    requires InOrder(log, source) && i < |source| && Follows(from, source[..i])
    ensures Follows(from, source[..i + 1]) <==> source[i].seqNo <= EndOf(from, source[..i]) + 1
    ensures source[i].seqNo <= EndOf(from, source[..i]) ==> EndOf(from, source[..i + 1]) == EndOf(from, source[..i])
    ensures source[i].seqNo == EndOf(from, source[..i]) + 1 ==> EndOf(from, source[..i + 1]) == source[i].seqNo
    ensures source[i].seqNo > EndOf(from, source[..i]) + 1 ==> !Follows(from, source)
  {
    hide Follows, InTheLog;
    FollowsSnoc(from, source, i);
  }

  /** A stretch of the ring pass: everything between from and lastSent was found, nothing from lastSent to next. */
  ghost predicate GivenSoFar(log: seq<WALEntry>, views: seq<Primary>, head: nat, from: nat, lastSent: nat, next: nat)
  {
    && from <= lastSent && (lastSent == from || (lastSent < next && lastSent < head))
    && (forall n: nat :: from < n <= lastSent ==> HeldAt(log, views, n)) && (forall n: nat :: lastSent < n < next && n < head ==> !HeldAt(log, views, n))
  }

  /** The first position the ring pass looks at leaves nothing out that is there. */
  lemma StartIsSafe(log: seq<WALEntry>, views: seq<Primary>, head: nat, from: nat)
    requires Recent(log, views, head)
    ensures GivenSoFar(log, views, head, from, from, RingStart(from, head)) && RingStart(from, head) > from
  {
    hide HeldAt;
  }

  lemma HoleIsFinal(log: seq<WALEntry>, views: seq<Primary>, head: nat, from: nat, lastSent: nat, n: nat, m: nat)
    requires GivenSoFar(log, views, head, from, lastSent, n) && lastSent + 1 < n < head && HeldAt(log, views, n)
    ensures !RingGives(log, views, head, from, m)
  {
    hide HeldAt;
    var skipped := lastSent + 1;
    assert !HeldAt(log, views, skipped);
  }

  lemma NoFurther(log: seq<WALEntry>, views: seq<Primary>, head: nat, from: nat, m: nat, m': nat)
    requires RingGives(log, views, head, from, m) && m < m'
    ensures !RingGives(log, views, head, from, m')
  {
    hide HeldAt;
    var n := m + 1;
    assert !HeldAt(log, views, n) || n >= head;
  }

  lemma GivenUnique(log: seq<WALEntry>, views: seq<Primary>, head: nat, from: nat, m: nat, m': nat)
    requires RingGives(log, views, head, from, m)
    ensures RingGives(log, views, head, from, m') ==> m == m'
  {
    hide RingGives;
    if m < m' { NoFurther(log, views, head, from, m, m'); }
    if m' < m && RingGives(log, views, head, from, m') { NoFurther(log, views, head, from, m', m); }
  }

  /** Reading slot n finds entry n exactly when the ring holds it. */
  lemma ReadIsHeld(log: seq<WALEntry>, views: seq<Primary>, n: nat)
    requires n < |views| && PrimaryOk(log, Idle, views[n])
    ensures |views[n].ring| == RING_BUFFER_SIZE
    ensures HeldAt(log, views, n) ==> 1 <= n <= |log| && RingEntry(views[n], n) == Some(log[n - 1]) && InTheLog(log, log[n - 1]) && log[n - 1].seqNo == n
    ensures !HeldAt(log, views, n) ==> RingEntry(views[n], n) == None
  {
  }

  /**
   Catch-up: what the WAL scan yielded, then the ring. views[n] is the ring as
   the locked read of number n finds it, since appends go on meanwhile. It
   succeeds exactly when the scan leaves no hole, the ring goes on from there
   without one, and the two reach lastAtStart.
   */
  method CatchUp(fromSeq: nat, lastAtStart: nat, scanned: seq<WALEntry>, head: nat, views: seq<Primary>, ghost log: seq<WALEntry>)
    returns (out: seq<WALEntry>, lastSent: nat, status: Status)
    requires IsLog(log) && fromSeq <= |log| && InOrder(log, scanned) && |views| >= head
    requires forall v :: 0 <= v < |views| ==> PrimaryOk(log, Idle, views[v])
    ensures Exact(log, fromSeq, out, lastSent) && status != Unavailable
    ensures status == OK ==> lastAtStart <= lastSent
    ensures Recent(log, views, head) && status == OK ==>
              Follows(fromSeq, scanned) && RingGives(log, views, head, EndOf(fromSeq, scanned), lastSent)
    ensures forall m: nat {:trigger RingGives(log, views, head, EndOf(fromSeq, scanned), m)} ::
              Recent(log, views, head) && Follows(fromSeq, scanned) && RingGives(log, views, head, EndOf(fromSeq, scanned), m) ==>
                lastSent == m && out == log[fromSeq..m] && (status == OK <==> lastAtStart <= m)
  {
    hide PrimaryOk, Follows, EndOf, Recent, Held, HeldAt, RingEntry, RingGives, InTheLog;
    out, lastSent, status := [], fromSeq, OK;
    NothingYet(fromSeq, scanned);
    for i := 0 to |scanned|
      invariant Exact(log, fromSeq, out, lastSent) && Follows(fromSeq, scanned[..i]) && lastSent == EndOf(fromSeq, scanned[..i])
    {
      ScanStep(log, fromSeq, scanned, i);
      out, lastSent, status := SendEntry(out, lastSent, scanned[i], false, log, fromSeq);
      if status != OK {
        return;
      }
    }
    assert scanned[..|scanned|] == scanned;
    ghost var scanEnd := lastSent;
    var start := RingStart(lastSent, head);
    var seqNo := start;
    if Recent(log, views, head) { StartIsSafe(log, views, head, scanEnd); }
    while seqNo < head
      invariant start <= seqNo && Exact(log, fromSeq, out, lastSent)
      invariant Recent(log, views, head) ==> GivenSoFar(log, views, head, scanEnd, lastSent, seqNo) && lastSent < seqNo
    {
      ReadIsHeld(log, views, seqNo);
      var e := RingEntry(views[seqNo], seqNo);
      seqNo := seqNo + 1;
      if e.None? {
        continue;
      }
      ghost var n, before := seqNo - 1, lastSent;
      out, lastSent, status := SendEntry(out, lastSent, e.value, false, log, fromSeq);
      if status != OK {
        if Recent(log, views, head) {
          forall m: nat ensures !RingGives(log, views, head, scanEnd, m) { HoleIsFinal(log, views, head, scanEnd, before, n, m); }
        }
        return;
      }
    }
    if Recent(log, views, head) {
      PassIsAll(log, views, head, scanEnd, lastSent, seqNo);
      forall m: nat ensures RingGives(log, views, head, scanEnd, m) ==> lastSent == m { GivenUnique(log, views, head, scanEnd, lastSent, m); }
    }
    if lastSent < lastAtStart {
      return out, lastSent, FailedPrecondition;
    }
    return out, lastSent, OK;
  }

  lemma NothingYet(from: nat, source: seq<WALEntry>)
    ensures Follows(from, source[..0]) && EndOf(from, source[..0]) == from
  {
  }

  lemma PassIsAll(log: seq<WALEntry>, views: seq<Primary>, head: nat, from: nat, lastSent: nat, next: nat)
    requires next >= head && GivenSoFar(log, views, head, from, lastSent, next)
    ensures RingGives(log, views, head, from, lastSent)
  {
    hide HeldAt;
  }

  /**
   streamToReplica: catch up, then forward what arrives on the channel until an
   entry does not follow. Everything sent is an exact stretch of the log; a
   stream that went live covers all it had to.
   */
  method StreamToReplica(fromSeq: nat, lastAtStart: nat, scanned: seq<WALEntry>, head: nat, views: seq<Primary>,
                         arrivals: seq<WALEntry>, ghost log: seq<WALEntry>)
    returns (out: seq<WALEntry>, lastSent: nat, status: Status)
    requires IsLog(log) && fromSeq <= |log| && InOrder(log, scanned) && |views| >= head
    requires forall v :: 0 <= v < |views| ==> PrimaryOk(log, Idle, views[v])
    requires InOrder(log, arrivals)
    ensures Exact(log, fromSeq, out, lastSent)
    ensures status != FailedPrecondition ==> lastAtStart <= lastSent
    ensures status == OK ==> forall i :: 0 <= i < |arrivals| ==> arrivals[i].seqNo <= lastSent
    ensures status == Unavailable ==> exists i :: 0 <= i < |arrivals| && arrivals[i].seqNo > lastSent + 1
    ensures forall m: nat {:trigger RingGives(log, views, head, EndOf(fromSeq, scanned), m)} ::
              Recent(log, views, head) && Follows(fromSeq, scanned) && RingGives(log, views, head, EndOf(fromSeq, scanned), m) && lastAtStart <= m ==>
                if Follows(m, arrivals) then status == OK && lastSent == EndOf(m, arrivals) && out == log[fromSeq..lastSent] else status == Unavailable
  {
    hide PrimaryOk, Follows, EndOf, Recent, RingGives, InTheLog;
    out, lastSent, status := CatchUp(fromSeq, lastAtStart, scanned, head, views, log);
    if status != OK {
      return;
    }
    ghost var caughtUp := lastSent;
    NothingYet(caughtUp, arrivals);
    assert arrivals[..|arrivals|] == arrivals;
    for i := 0 to |arrivals|
      invariant Exact(log, fromSeq, out, lastSent) && lastAtStart <= lastSent && status == OK
      invariant forall j :: 0 <= j < i ==> arrivals[j].seqNo <= lastSent
      invariant Follows(caughtUp, arrivals[..i]) && lastSent == EndOf(caughtUp, arrivals[..i])
    {
      ScanStep(log, caughtUp, arrivals, i);
      out, lastSent, status := SendEntry(out, lastSent, arrivals[i], true, log, fromSeq);
      if status != OK {
        return;
      }
    }
  }

  // ----- the replica

  /** The file the applied sequence number is saved to. */
  datatype SeqFile = Missing | Holds(seqNo: nat) | Malformed

  /** Messages until one ends the stream, or until the stream itself ends. */
  function Consumed(r: Replica, messages: seq<WALEntry>, applies: seq<bool>, end: Status): Replica
    requires |messages| == |applies|
    decreases |messages|
  {
    if messages == [] then Refused(r, end)
    else
      var got := Receive(r, messages[0], applies[0]);
      if got.stop then got.replica else Consumed(got.replica, messages[1..], applies[1..], end)
  }

  class ReplicaApplier {
    var appliedSeq: nat
    var failSeq: nat
    var failCount: nat
    var needsResync: bool
    var gotMessage: bool
    var connected: bool
    var deadLetters: seq<DeadLetter>
    var deadLetterCount: nat
    /** Every dead letter ever written to the dead-letter file. */
    var deadLetterFile: seq<DeadLetter>
    var seqFile: SeqFile

    function State(): Replica
      reads this
    {
      Replica(appliedSeq, failSeq, failCount, needsResync, deadLetters, deadLetterCount)
    }

    /** The letters kept are the last 100 of the file, the newest last. */
    ghost predicate Lettered()
      reads this
    {
      deadLetterCount == |deadLetterFile| && AreLast(deadLetters, deadLetterFile)
    }

    constructor (seqFile: SeqFile)
      ensures State() == Restarted(0) && this.seqFile == seqFile && deadLetterFile == [] && Lettered()
    {
      appliedSeq, failSeq, failCount, needsResync, gotMessage, connected := 0, 0, 0, false, false, false;
      deadLetters, deadLetterCount, deadLetterFile := [], 0, [];
      this.seqFile := seqFile;
    }

    /** The saved sequence number when there is one, initialSeq when there is no file; a malformed file is an error. */
    method LoadAppliedSeq(initialSeq: nat) returns (ok: bool)
      modifies this`appliedSeq
      ensures ok == !seqFile.Malformed?
      ensures appliedSeq == if seqFile.Holds? then seqFile.seqNo else if seqFile.Missing? then initialSeq else old(appliedSeq)
      ensures ok ==> Behind(appliedSeq)
    {
      var seqNo := initialSeq;
      match seqFile {
        case Malformed => return false;
        case Holds(v) => seqNo := v;
        case Missing =>
      }
      appliedSeq := seqNo;
      return true;
    }

    /** What is on disk is at or below prev, which is at or below what was handled. */
    ghost predicate Behind(prev: nat)
      reads this
    {
      prev <= appliedSeq && (seqFile.Holds? ==> seqFile.seqNo <= prev)
    }

    /**
     One tick of the save loop: the number observed a tick earlier goes to disk,
     so a saved number never runs ahead of what was handled and never goes back.
     */
    method PersistTick(prev: nat) returns (next: nat)
      requires Behind(prev)
      modifies this`seqFile
      ensures Behind(next) && next == appliedSeq && seqFile == Holds(prev)
      ensures seqFile.seqNo <= appliedSeq && (old(seqFile).Holds? ==> old(seqFile).seqNo <= seqFile.seqNo)
    {
      seqFile := Holds(prev);
      next := appliedSeq;
    }

    method DeadLetterEntry(entry: WALEntry, attempts: nat)
      modifies this`deadLetters, this`deadLetterCount, this`deadLetterFile
      ensures State() == DeadLettered(old(State()), entry, attempts)
      ensures deadLetterFile == old(deadLetterFile) + [DeadLetter(entry, attempts)]
      ensures deadLetters != [] && deadLetters[|deadLetters| - 1] == DeadLetter(entry, attempts)
      ensures old(Lettered()) ==> Lettered()
      ensures deadLetterCount == old(deadLetterCount) + 1
    {
      hide AreLast;
      if Lettered() { LettersAreLast(State(), entry, attempts, deadLetterFile); }
      var dl := DeadLetter(entry, attempts);
      NewestKept(deadLetters, dl);
      deadLetters := deadLetters + [dl];
      if |deadLetters| > MAX_DEAD_LETTERS {
        deadLetters := deadLetters[|deadLetters| - MAX_DEAD_LETTERS..];
      }
      assert deadLetters == Trimmed(old(deadLetters) + [dl]);
      hide Trimmed;
      deadLetterCount := deadLetterCount + 1;
      deadLetterFile := deadLetterFile + [dl];
    }

    /** One message of applyStream; stop means the stream is abandoned with an error. */
    method Take(entry: WALEntry, applies: bool) returns (stop: bool)
      modifies this
      ensures State() == Receive(old(State()), entry, applies).replica && stop == Receive(old(State()), entry, applies).stop
      ensures seqFile == old(seqFile) && gotMessage && old(deadLetterFile) <= deadLetterFile
      ensures |deadLetterFile| - |old(deadLetterFile)| == deadLetterCount - old(deadLetterCount)
      ensures forall prev :: old(Behind(prev)) ==> Behind(prev)
      ensures old(Lettered()) ==> Lettered()
      ensures entry.op == Heartbeat || entry.seqNo <= old(appliedSeq) ==> !stop && State() == old(State())
      ensures entry.op != Heartbeat && entry.seqNo > old(appliedSeq) + 1 ==> stop && State() == old(State())
      ensures entry.op != Heartbeat && entry.seqNo == old(appliedSeq) + 1 && applies ==> !stop && appliedSeq == entry.seqNo
      ensures needsResync <==> old(needsResync) && appliedSeq == old(appliedSeq)
      ensures connected == (old(connected) || !old(gotMessage))
      ensures old(appliedSeq) <= appliedSeq <= old(appliedSeq) + 1
    {
      hide Trimmed, DeadLettered, AreLast;
      if !gotMessage {
        gotMessage := true;
        connected := true;
      }
      if entry.op == Heartbeat || entry.seqNo == 0 {
        return false;
      }
      if entry.seqNo <= appliedSeq {
        return false;
      }
      if entry.seqNo != appliedSeq + 1 {
        return true;
      }
      if !applies {
        if entry.seqNo != failSeq {
          failSeq, failCount := entry.seqNo, 0;
        }
        failCount := failCount + 1;
        if failCount < MAX_APPLY_ATTEMPTS {
          return true;
        }
        DeadLetterEntry(entry, failCount);
      }
      if entry.seqNo == failSeq {
        failSeq, failCount := 0, 0;
      }
      appliedSeq := entry.seqNo;
      needsResync := false;
      return false;
    }

    /**
     applyStream: read until an error, the replica's own (failed) or the stream's
     end. read messages were received; at[i] is the position before message i. A
     message beyond the next entry is the last one read.
     */
    method ApplyStream(messages: seq<WALEntry>, applies: seq<bool>, end: Status) returns (read: nat, failed: bool, ghost at: seq<nat>)
      requires |messages| == |applies|
      modifies this
      ensures State() == Consumed(old(State()), messages, applies, end)
      ensures forall prev :: old(Behind(prev)) ==> Behind(prev)
      ensures old(Lettered()) ==> Lettered()
      ensures read <= |messages| && (failed ==> read > 0) && (!failed ==> read == |messages|)
      ensures |at| == read + 1 && at[0] == old(appliedSeq) && at[read] == appliedSeq
      ensures forall i :: 0 <= i < read && messages[i].op != Heartbeat && messages[i].seqNo > at[i] + 1 ==>
                failed && read == i + 1 && appliedSeq == at[i]
      ensures forall i :: 0 <= i < read && (messages[i].op == Heartbeat || messages[i].seqNo <= at[i]) ==> !failed || i + 1 < read
      ensures needsResync <==> (!failed && end == FailedPrecondition) || (old(needsResync) && appliedSeq == old(appliedSeq))
    {
      hide Receive;
      ghost var r0 := State();
      at := [appliedSeq];
      for i := 0 to |messages|
        invariant forall prev :: old(Behind(prev)) ==> Behind(prev)
        invariant old(Lettered()) ==> Lettered()
        invariant Consumed(State(), messages[i..], applies[i..], end) == Consumed(r0, messages, applies, end)
        invariant |at| == i + 1 && at[0] == r0.appliedSeq && at[i] == appliedSeq >= r0.appliedSeq
        invariant forall j :: 0 <= j < i ==> messages[j].op == Heartbeat || messages[j].seqNo <= at[j] + 1
        invariant needsResync <==> r0.needsResync && appliedSeq == r0.appliedSeq
      {
        hide Lettered;
        assert messages[i..][1..] == messages[i + 1..] && applies[i..][1..] == applies[i + 1..];
        var stop := Take(messages[i], applies[i]);
        at := at + [appliedSeq];
        if stop {
          return i + 1, true, at;
        }
      }
      if end == FailedPrecondition {
        needsResync := true;
      }
      return |messages|, false, at;
    }
  }

  /** A stream whose next message lies beyond the replica's next entry is given up there, whatever else was under way. */
  lemma GapEndsStream(r: Replica, messages: seq<WALEntry>, applies: seq<bool>, end: Status)
    requires |messages| == |applies| && messages != [] && messages[0].op != Heartbeat && messages[0].seqNo > r.appliedSeq + 1
    ensures Consumed(r, messages, applies, end) == r
  {
    GapStops(r, messages[0], applies[0]);
  }

  /** However a stream goes, appliedSeq does not fall and failures stay counted for the next entry only. */
  lemma {:induction false} ConsumedKeeps(r: Replica, messages: seq<WALEntry>, applies: seq<bool>, end: Status)
    requires Counting(r) && |messages| == |applies|
    decreases |messages|
    ensures Counting(Consumed(r, messages, applies, end)) && r.appliedSeq <= Consumed(r, messages, applies, end).appliedSeq
  {
    hide Trimmed;
    if messages != [] {
      ReceiveCounts(r, messages[0], applies[0]);
      ConsumedKeeps(Receive(r, messages[0], applies[0]).replica, messages[1..], applies[1..], end);
    }
  }
}
