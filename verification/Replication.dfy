/**
 The steps of WAL replication (internal/replication): what one step of the
 primary, of a replica stream and of the replica does to their state.
 */
module Replication {
  import opened Options
  import opened Bits

  const RING_BUFFER_SIZE: nat := 10000
  const REPLICA_CHAN_SIZE: nat := 256
  const MAX_APPLY_ATTEMPTS: nat := 5
  const MAX_DEAD_LETTERS: nat := 100

  datatype Op = Index | Delete | Reset | Heartbeat

  datatype WALEntry = WALEntry(seqNo: nat, op: Op, docID: gostring, body: seq<byte>)

  /** The codes a stream can end with. */
  datatype Status = OK | FailedPrecondition | Unavailable

  // ----- the primary

  /** head is the highest sequence number appended plus one; replicas maps a connection to its channel. */
  datatype Primary = Primary(ring: seq<Option<WALEntry>>, head: nat, replicas: map<nat, seq<WALEntry>>, nextID: nat)

  ghost predicate Sized(p: Primary) {
    |p.ring| == RING_BUFFER_SIZE && forall id :: id in p.replicas ==> id <= p.nextID && |p.replicas[id]| <= REPLICA_CHAN_SIZE
  }

  /** The entry takes the ring slot of its sequence number. */
  function Stored(p: Primary, e: WALEntry): Primary
    requires |p.ring| == RING_BUFFER_SIZE
  {
    p.(ring := p.ring[e.seqNo % RING_BUFFER_SIZE := Some(e)], head := if e.seqNo + 1 > p.head then e.seqNo + 1 else p.head)
  }

  /** A channel send that never blocks: a full channel loses the entry. */
  function Offered(queue: seq<WALEntry>, e: WALEntry): seq<WALEntry> {
    if |queue| < REPLICA_CHAN_SIZE then queue + [e] else queue
  }

  function FannedOut(p: Primary, e: WALEntry): Primary {
    p.(replicas := map id | id in p.replicas :: Offered(p.replicas[id], e))
  }

  /** A new connection with an empty channel. */
  function Registered(p: Primary): Primary {
    p.(nextID := p.nextID + 1, replicas := p.replicas[p.nextID + 1 := []])
  }

  function Unregistered(p: Primary, id: nat): Primary {
    p.(replicas := map i | i in p.replicas && i != id :: p.replicas[i])
  }

  // ----- a stream to one replica

  /** What send does with an entry: forward it, skip it, or end the stream. */
  datatype Sent = Forwarded | Skipped | Failed(status: Status)

  function Send(lastSent: nat, e: WALEntry, live: bool): Sent {
    if e.seqNo <= lastSent then Skipped
    else if e.seqNo != lastSent + 1 then Failed(if live then Unavailable else FailedPrecondition)
    else Forwarded
  }

  /** The first ring position a stream looks at. */
  function RingStart(lastSent: nat, head: nat): nat {
    if head > RING_BUFFER_SIZE && lastSent + 1 < head - RING_BUFFER_SIZE then head - RING_BUFFER_SIZE else lastSent + 1
  }

  /** The ring entry of a sequence number, unless a newer one took its slot. */
  function RingEntry(p: Primary, seqNo: nat): Option<WALEntry>
    requires |p.ring| == RING_BUFFER_SIZE
  {
    var e := p.ring[seqNo % RING_BUFFER_SIZE];
    if e.Some? && e.value.seqNo == seqNo then e else None
  }

  // ----- the replica

  datatype DeadLetter = DeadLetter(entry: WALEntry, attempts: nat)

  datatype Replica = Replica(
    appliedSeq: nat,
    failSeq: nat,
    failCount: nat,
    needsResync: bool,
    deadLetters: seq<DeadLetter>,
    deadLetterCount: nat)

  /** What one received message does; stop ends the stream with an error. */
  datatype Received = Received(replica: Replica, stop: bool)

  function Trimmed(letters: seq<DeadLetter>): seq<DeadLetter> {
    if |letters| > MAX_DEAD_LETTERS then letters[|letters| - MAX_DEAD_LETTERS..] else letters
  }

  function DeadLettered(r: Replica, e: WALEntry, attempts: nat): Replica {
    r.(deadLetters := Trimmed(r.deadLetters + [DeadLetter(e, attempts)]), deadLetterCount := r.deadLetterCount + 1)
  }

  /** Failures counted for e once one more is added. */
  function Failures(r: Replica, e: WALEntry): nat {
    (if e.seqNo != r.failSeq then 0 else r.failCount) + 1
  }

  /** The entry is behind the replica: applied, or given up. */
  function Handled(r: Replica, e: WALEntry): Replica {
    r.(appliedSeq := e.seqNo, needsResync := false,
       failSeq := if e.seqNo == r.failSeq then 0 else r.failSeq,
       failCount := if e.seqNo == r.failSeq then 0 else r.failCount)
  }

  /** One message; applies says whether applying it would succeed. */
  function Receive(r: Replica, e: WALEntry, applies: bool): Received {
    if e.op == Heartbeat || e.seqNo == 0 || e.seqNo <= r.appliedSeq then Received(r, false)
    else if e.seqNo != r.appliedSeq + 1 then Received(r, true)
    else if applies then Received(Handled(r, e), false)
    else
      var n := Failures(r, e);
      var failing := r.(failSeq := e.seqNo, failCount := n);
      if n < MAX_APPLY_ATTEMPTS then Received(failing, true) else Received(Handled(DeadLettered(failing, e, n), e), false)
  }

  /** The stream ended with a code. */
  function Refused(r: Replica, status: Status): Replica {
    if status == FailedPrecondition then r.(needsResync := true) else r
  }

  /** A fresh process resumes from the saved sequence number. */
  function Restarted(saved: nat): Replica {
    Replica(saved, 0, 0, false, [], 0)
  }

  // ----- what the steps come to, in numbers

  /** Entries stored after e, one number after the other. */
  function StoredAll(p: Primary, es: seq<WALEntry>): (p': Primary)
    requires |p.ring| == RING_BUFFER_SIZE
    ensures |p'.ring| == RING_BUFFER_SIZE
  {
    if es == [] then p else Stored(StoredAll(p, es[..|es| - 1]), es[|es| - 1])
  }

  /** A stored entry stays in the ring until 10000 newer ones were stored. */
  lemma {:induction false} StoredStays(p: Primary, e: WALEntry, later: seq<WALEntry>)
    requires |p.ring| == RING_BUFFER_SIZE && |later| < 10000
    requires forall i :: 0 <= i < |later| ==> later[i].seqNo == e.seqNo + 1 + i
    ensures var p' := StoredAll(Stored(p, e), later);
            && p'.ring[e.seqNo % 10000] == Some(e) && RingEntry(p', e.seqNo) == Some(e)
            && p'.head == if p.head > e.seqNo + 1 + |later| then p.head else e.seqNo + 1 + |later|
  {
    if later != [] {
      var last := |later| - 1;
      StoredStays(p, e, later[..last]);
      OtherSlot(e.seqNo, later[last].seqNo);
    }
  }

  /** Numbers less than 10000 apart have different slots. */
  lemma OtherSlot(m: nat, n: nat)
    requires m < n < m + 10000
    ensures m % 10000 != n % 10000
  {
  }

  /** A connection that ends takes its own channel away and no other. */
  lemma LeavesOthers(p: Primary, id: nat)
    ensures var p' := Unregistered(p, id);
            && p'.ring == p.ring && p'.head == p.head && p'.nextID == p.nextID
            && id !in p'.replicas
            && forall i :: i != id ==> (i in p'.replicas <==> i in p.replicas) && (i in p.replicas ==> p'.replicas[i] == p.replicas[i])
  {
  }

  /** A new connection gets an empty channel and leaves the others theirs. */
  lemma JoinsOthers(p: Primary)
    requires Sized(p)
    ensures var p' := Registered(p);
            && p'.ring == p.ring && p'.head == p.head && p'.nextID !in p.replicas
            && p'.nextID in p'.replicas && p'.replicas[p'.nextID] == []
            && forall i :: i in p.replicas ==> i in p'.replicas && p'.replicas[i] == p.replicas[i]
  {
  }

  /** Every channel with fewer than 256 entries gets the new one, a full one stays as it is. */
  lemma FansOutToAll(p: Primary, e: WALEntry)
    ensures var p' := FannedOut(p, e);
            && p'.ring == p.ring && p'.head == p.head && p'.replicas.Keys == p.replicas.Keys
            && forall i :: i in p.replicas ==> p'.replicas[i] == if |p.replicas[i]| < 256 then p.replicas[i] + [e] else p.replicas[i]
  {
  }

  /** Heartbeats, and entries the replica is past already, change nothing and the stream goes on. */
  lemma OldIgnored(r: Replica, e: WALEntry, applies: bool)
    requires e.op == Heartbeat || e.seqNo <= r.appliedSeq
    ensures Receive(r, e, applies).replica == r && !Receive(r, e, applies).stop
  {
  }

  /** An entry beyond the next one ends the stream and leaves the replica as it was, so that it reconnects from where it stands. */
  lemma GapStops(r: Replica, e: WALEntry, applies: bool)
    requires e.op != Heartbeat && e.seqNo > r.appliedSeq + 1
    ensures Receive(r, e, applies).replica == r && Receive(r, e, applies).stop
  {
  }

  /**
   The next entry: applied, or set aside when it fails for the fifth time, the
   replica moves on and the stream with it; failing less often, it is counted
   and ends the stream.
   */
  lemma NextMovesOrStops(r: Replica, e: WALEntry, applies: bool)
    requires Counting(r) && e.op != Heartbeat && e.seqNo == r.appliedSeq + 1
    ensures var got := Receive(r, e, applies);
            var before := if r.failSeq == e.seqNo then r.failCount else 0;
            if applies || before == 4 then
              && !got.stop && got.replica.appliedSeq == e.seqNo && !got.replica.needsResync && got.replica.failSeq == got.replica.failCount == 0
              && got.replica.deadLetterCount == r.deadLetterCount + (if applies then 0 else 1)
              && (applies ==> got.replica.deadLetters == r.deadLetters)
              && (!applies ==> got.replica.deadLetters != [] && got.replica.deadLetters[|got.replica.deadLetters| - 1] == DeadLetter(e, 5))
            else
              && got.stop && got.replica == r.(failSeq := e.seqNo, failCount := before + 1)
  {
  }

  lemma NewestKept(letters: seq<DeadLetter>, dl: DeadLetter)
    ensures var kept := Trimmed(letters + [dl]); kept != [] && kept[|kept| - 1] == dl && |kept| <= 100
  {
  }

  /** The last 100 of the letters written. */
  ghost predicate AreLast(kept: seq<DeadLetter>, written: seq<DeadLetter>) {
    kept == if |written| <= 100 then written else written[|written| - 100..]
  }

  /** One more letter: those kept are still the last ones written, and it is the very last. */
  lemma LettersAreLast(r: Replica, e: WALEntry, attempts: nat, written: seq<DeadLetter>)
    requires AreLast(r.deadLetters, written)
    ensures var kept := DeadLettered(r, e, attempts).deadLetters;
            AreLast(kept, written + [DeadLetter(e, attempts)]) && kept != [] && kept[|kept| - 1] == DeadLetter(e, attempts)
  {
    var dl := DeadLetter(e, attempts);
    NewestKept(r.deadLetters, dl);
    LastShift(written, dl);
    if |written| > 100 { assert |r.deadLetters| == 100; }
  }

  lemma LastShift(written: seq<DeadLetter>, dl: DeadLetter)
    ensures |written| >= 100 ==> (written[|written| - 100..] + [dl])[1..] == (written + [dl])[|written| - 99..]
  {
    if |written| >= 100 {
      var x, y := (written[|written| - 100..] + [dl])[1..], (written + [dl])[|written| - 99..];
      assert |x| == |y| == 100;
      forall k | 0 <= k < 100 ensures x[k] == y[k] {
        assert x[k] == (written[|written| - 100..] + [dl])[k + 1] && y[k] == (written + [dl])[|written| - 99 + k];
      }
    }
  }

  // ----- retries are bounded

  /** Failures are counted for the next entry only, and fewer than the limit. */
  ghost predicate Counting(r: Replica) {
    && (r.failSeq == 0 || r.failSeq == r.appliedSeq + 1) && r.failCount < MAX_APPLY_ATTEMPTS
    && (r.failSeq == 0 ==> r.failCount == 0)
    && |r.deadLetters| == (if r.deadLetterCount < MAX_DEAD_LETTERS then r.deadLetterCount else MAX_DEAD_LETTERS)
  }

  lemma ReceiveCounts(r: Replica, e: WALEntry, applies: bool)
    requires Counting(r)
    ensures var got := Receive(r, e, applies);
            && Counting(got.replica)
            && (got.replica.appliedSeq == r.appliedSeq || (e.op != Heartbeat && got.replica.appliedSeq == e.seqNo == r.appliedSeq + 1))
            && (got.replica.deadLetterCount > r.deadLetterCount ==>
                  Failures(r, e) == MAX_APPLY_ATTEMPTS && got.replica.appliedSeq == e.seqNo && !applies)
  {
  }

  /** Deliver one entry several times, with the given outcomes. */
  function Deliveries(r: Replica, e: WALEntry, outcomes: seq<bool>): Replica {
    if outcomes == [] then r
    else Receive(Deliveries(r, e, outcomes[..|outcomes| - 1]), e, outcomes[|outcomes| - 1]).replica
  }

  /** While nothing succeeds the count grows by one per delivery, until the entry is set aside. */
  lemma {:induction false} DeliveryProgress(r: Replica, e: WALEntry, outcomes: seq<bool>)
    requires Counting(r) && e.op != Heartbeat && e.seqNo == r.appliedSeq + 1
    ensures var after := Deliveries(r, e, outcomes);
            && Counting(after)
            && (after.appliedSeq == e.seqNo
                || (after.appliedSeq == r.appliedSeq && after.failCount >= |outcomes|
                    && (|outcomes| > 0 ==> after.failSeq == e.seqNo)))
  {
    if outcomes != [] {
      DeliveryProgress(r, e, outcomes[..|outcomes| - 1]);
    }
  }

  /** Five deliveries of the next entry always move the replica past it. */
  lemma FiveDeliveries(r: Replica, e: WALEntry, outcomes: seq<bool>)
    requires Counting(r) && e.op != Heartbeat && e.seqNo == r.appliedSeq + 1 && |outcomes| == 5
    ensures Deliveries(r, e, outcomes).appliedSeq == e.seqNo
  {
    DeliveryProgress(r, e, outcomes);
  }
}
