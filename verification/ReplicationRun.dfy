/**
 Whole runs of one primary and one replica (internal/replication): writes, ring
 overwrites, channel drops, partial WAL scans, broken and lossy streams,
 reconnects, apply failures and restarts in any interleaving, while other
 replicas connect to the primary, read their channels and leave.
 */
module ReplicationRun {
  import opened Options
  import opened Bits
  import opened Replication

  /** A write is logged, then stored in the ring, then offered to the channels; other steps may come between. */
  datatype Stage = Idle | InLog(entry: WALEntry) | InRing(entry: WALEntry)

  /** Where a stream is: before reading the last sequence number, in the WAL files, in the ring, live, or ended. */
  datatype Phase = Starting | Scanning(next: nat) | Ring(next: nat, head: nat) | Live | Over(status: Status)

  /**
   A stream and the messages under way to the replica. sent, taken and dropped
   are history: everything forwarded, how far into the log the channel has been
   consumed, and whether the channel ever lost an entry.
   */
  datatype Conn = Conn(
    id: nat,
    fromSeq: nat,
    lastSent: nat,
    lastAtStart: nat,
    phase: Phase,
    wire: seq<WALEntry>,
    sent: seq<WALEntry>,
    taken: nat,
    dropped: bool)

  datatype Outcome = Applied(entry: WALEntry) | SetAside(entry: WALEntry)

  /** One call of the apply function. */
  datatype Attempt = Attempt(seqNo: nat, ok: bool)

  /**
   log holds every sequence number ever assigned. saved and prev are the
   replica's persisted sequence number and the one observed an interval ago;
   start, outcomes and attempts are the history of the running replica process.
   */
  datatype System = System(
    log: seq<WALEntry>,
    stage: Stage,
    primary: Primary,
    conn: Option<Conn>,
    replica: Replica,
    saved: nat,
    prev: nat,
    start: nat,
    outcomes: seq<Outcome>,
    attempts: seq<Attempt>)

  datatype Action =
    | Write(op: Op, docID: gostring, body: seq<byte>)
    | StoreInRing
    | FanOut
    | RestartPrimary
    | Connect
    | ReadLastSeq
    | ScanSend(at: nat)
    | ScanEnd
    | RingStep
    | RingEnd
    | LiveSend
    | SendHeartbeat
    | Break
    | Lose(at: nat)
    | Repeat(at: nat)
    | Deliver(applies: bool)
    | StreamEnd
    | SaveTick
    | RestartReplica
    | CloseReplica
    | Abandon
    | OtherConnects
    | OtherTakes(id: nat)
    | OtherLeaves(id: nat)

  /** How much of the log the channels have been offered. */
  function Fanned(s: System): int {
    if s.stage.Idle? then |s.log| else |s.log| - 1
  }

  function Queue(s: System): seq<WALEntry> {
    if s.conn.Some? && s.conn.value.id in s.primary.replicas then s.primary.replicas[s.conn.value.id] else []
  }

  function HeartbeatEntry(): WALEntry { WALEntry(0, Heartbeat, [], []) }

  ghost predicate Enabled(s: System, a: Action) {
    match a
    case Write(op, _, _) => s.stage.Idle? && op != Heartbeat
    case StoreInRing => s.stage.InLog? && |s.primary.ring| == RING_BUFFER_SIZE
    case FanOut => s.stage.InRing?
    case RestartPrimary => true
    case Connect => s.conn.None?
    case ReadLastSeq => s.conn.Some? && s.conn.value.phase.Starting? && s.stage.Idle?
    case ScanSend(at) => s.conn.Some? && s.conn.value.phase.Scanning? && s.conn.value.phase.next <= at < |s.log|
    case ScanEnd => s.conn.Some? && s.conn.value.phase.Scanning?
    case RingStep => s.conn.Some? && s.conn.value.phase.Ring? && s.conn.value.phase.next < s.conn.value.phase.head
                     && |s.primary.ring| == RING_BUFFER_SIZE
    case RingEnd => s.conn.Some? && s.conn.value.phase.Ring? && s.conn.value.phase.next >= s.conn.value.phase.head
    case LiveSend => s.conn.Some? && s.conn.value.phase.Live? && Queue(s) != []
    case SendHeartbeat => s.conn.Some? && s.conn.value.phase.Live?
    case Break => s.conn.Some?
    case Lose(at) => s.conn.Some? && at < |s.conn.value.wire|
    case Repeat(at) => s.conn.Some? && at < |s.conn.value.wire|
    case Deliver(_) => s.conn.Some? && s.conn.value.wire != []
    case StreamEnd => s.conn.Some? && s.conn.value.phase.Over? && s.conn.value.wire == []
    case SaveTick => true
    case RestartReplica => true
    case CloseReplica => true
    case Abandon => s.conn.Some?
    case OtherConnects => true
    case OtherTakes(id) => Other(s, id) && s.primary.replicas[id] != []
    case OtherLeaves(id) => Other(s, id)
  }

  /** The channel of a connection that is not the replica's: another replica's, or one this replica gave up. */
  predicate Other(s: System, id: nat) {
    id in s.primary.replicas && (s.conn.Some? ==> s.conn.value.id != id)
  }

  /** The stream sends e, unless it was sent already or does not follow. */
  function SendOn(c: Conn, e: WALEntry, live: bool, next: Phase): Conn {
    match Send(c.lastSent, e, live)
    case Skipped => c.(phase := next)
    case Failed(status) => c.(phase := Over(status))
    case Forwarded => c.(phase := next, lastSent := e.seqNo, sent := c.sent + [e], wire := c.wire + [e])
  }

  function Disconnected(s: System): System {
    if s.conn.None? then s else s.(conn := None, primary := Unregistered(s.primary, s.conn.value.id))
  }

  /** A replica process that starts from the saved sequence number; a graceful close saves appliedSeq first. */
  function NewProcess(s: System, saved: nat): System {
    Disconnected(s).(replica := Restarted(saved), saved := saved, prev := saved, start := saved, outcomes := [], attempts := [])
  }

  function AfterLive(s: System): System
    requires s.conn.Some? && Queue(s) != []
  {
    var c, q := s.conn.value, Queue(s);
    s.(primary := s.primary.(replicas := s.primary.replicas[c.id := q[1..]]),
       conn := Some(SendOn(c, q[0], true, Live).(taken := q[0].seqNo)))
  }

  /** A message reaches the replica; an error there ends the stream. */
  function AfterDeliver(s: System, applies: bool): System
    requires s.conn.Some? && s.conn.value.wire != []
  {
    var c := s.conn.value;
    var e := c.wire[0];
    var got := Receive(s.replica, e, applies);
    var tried := e.op != Heartbeat && e.seqNo == s.replica.appliedSeq + 1;
    var moved := got.replica.appliedSeq != s.replica.appliedSeq;
    var s' := s.(conn := Some(c.(wire := c.wire[1..])), replica := got.replica,
                 attempts := if tried then s.attempts + [Attempt(e.seqNo, applies)] else s.attempts,
                 outcomes := if moved then s.outcomes + [if applies then Applied(e) else SetAside(e)] else s.outcomes);
    if got.stop then Disconnected(s') else s'
  }

  /** known: the primary was given its last assigned sequence number. */
  function Step(s: System, a: Action, known: bool): System
    requires Enabled(s, a)
  {
    match a
    case Write(op, docID, body) =>
      var e := WALEntry(|s.log| + 1, op, docID, body);
      s.(log := s.log + [e], stage := InLog(e))
    case StoreInRing => s.(stage := InRing(s.stage.entry), primary := Stored(s.primary, s.stage.entry))
    case FanOut =>
      var lost := s.conn.Some? && |Queue(s)| >= REPLICA_CHAN_SIZE;
      s.(stage := Idle, primary := FannedOut(s.primary, s.stage.entry),
         conn := if lost then Some(s.conn.value.(dropped := true)) else s.conn)
    case RestartPrimary =>
      s.(stage := Idle, conn := None, primary := Primary(seq(RING_BUFFER_SIZE, _ => None), 0, map[], 0))
    case Connect =>
      var p := Registered(s.primary);
      var from := s.replica.appliedSeq;
      s.(primary := p, conn := Some(Conn(p.nextID, from, from, 0, Starting, [], [], if Fanned(s) < 0 then 0 else Fanned(s), false)))
    case ReadLastSeq =>
      s.(conn := Some(s.conn.value.(lastAtStart := if known then |s.log| else 0, phase := Scanning(0))))
    case ScanSend(at) => s.(conn := Some(SendOn(s.conn.value, s.log[at], false, Scanning(at + 1))))
    case ScanEnd =>
      var c := s.conn.value;
      s.(conn := Some(c.(phase := Ring(RingStart(c.lastSent, s.primary.head), s.primary.head))))
    case RingStep =>
      var c := s.conn.value;
      var e := RingEntry(s.primary, c.phase.next);
      var next := Ring(c.phase.next + 1, c.phase.head);
      s.(conn := Some(if e.None? then c.(phase := next) else SendOn(c, e.value, false, next)))
    case RingEnd =>
      var c := s.conn.value;
      s.(conn := Some(c.(phase := if c.lastSent < c.lastAtStart then Over(FailedPrecondition) else Live)))
    case LiveSend => AfterLive(s)
    case SendHeartbeat => s.(conn := Some(s.conn.value.(wire := s.conn.value.wire + [HeartbeatEntry()])))
    case Break => Disconnected(s)
    case Lose(at) =>
      var c := s.conn.value;
      s.(conn := Some(c.(wire := c.wire[..at] + c.wire[at + 1..])))
    case Repeat(at) =>
      var c := s.conn.value;
      s.(conn := Some(c.(wire := c.wire + [c.wire[at]])))
    case Deliver(applies) => AfterDeliver(s, applies)
    case StreamEnd => Disconnected(s.(replica := Refused(s.replica, s.conn.value.phase.status)))
    case SaveTick => s.(saved := s.prev, prev := s.replica.appliedSeq)
    case RestartReplica => NewProcess(s, s.saved)
    case CloseReplica => NewProcess(s, s.replica.appliedSeq)
    case Abandon => s.(conn := None)
    case OtherConnects => s.(primary := Registered(s.primary))
    case OtherTakes(id) => s.(primary := s.primary.(replicas := s.primary.replicas[id := s.primary.replicas[id][1..]]))
    case OtherLeaves(id) => s.(primary := Unregistered(s.primary, id))
  }

  // ----- the invariant

  ghost predicate InTheLog(log: seq<WALEntry>, e: WALEntry) {
    1 <= e.seqNo <= |log| && log[e.seqNo - 1] == e
  }

  ghost predicate IsLog(log: seq<WALEntry>) {
    forall i :: 0 <= i < |log| ==> log[i].seqNo == i + 1 && log[i].op != Heartbeat
  }

  ghost predicate PrimaryOk(log: seq<WALEntry>, stage: Stage, p: Primary) {
    && IsLog(log) && Sized(p) && p.head <= |log| + 1
    && (!stage.Idle? ==> |log| > 0 && stage.entry == log[|log| - 1])
    && (forall k :: 0 <= k < RING_BUFFER_SIZE && p.ring[k].Some? ==> InTheLog(log, p.ring[k].value))
    && (forall id :: id in p.replicas ==> AllInTheLog(log, p.replicas[id]))
  }

  ghost predicate AllInTheLog(log: seq<WALEntry>, q: seq<WALEntry>) {
    forall i :: 0 <= i < |q| ==> InTheLog(log, q[i])
  }

  ghost predicate WireOk(log: seq<WALEntry>, wire: seq<WALEntry>) {
    forall i :: 0 <= i < |wire| ==> wire[i].op == Heartbeat || InTheLog(log, wire[i])
  }

  /** What was forwarded is exactly the log from fromSeq to lastSent; only log entries and heartbeats are under way. */
  ghost predicate ConnOk(log: seq<WALEntry>, c: Conn) {
    && c.fromSeq <= c.lastSent <= |log| && c.lastAtStart <= |log|
    && c.sent == log[c.fromSeq..c.lastSent]
    && (c.phase.Live? ==> c.lastAtStart <= c.lastSent)
    && WireOk(log, c.wire)
  }

  /** A channel that lost nothing holds exactly what was offered and not yet consumed. */
  ghost predicate ChannelOk(log: seq<WALEntry>, fanned: int, queue: seq<WALEntry>, c: Conn, known: bool) {
    && 0 <= fanned <= |log|
    && (!c.dropped ==> c.taken <= fanned && queue == log[c.taken..fanned])
    && (known && !c.dropped && !c.phase.Starting? ==> c.phase.Over? || c.phase.Live? || c.taken <= c.lastAtStart)
    && (known && c.phase.Live? && !c.dropped ==> c.taken <= c.lastSent)
  }

  ghost predicate ReplicaOk(log: seq<WALEntry>, r: Replica, saved: nat, prev: nat, start: nat, outcomes: seq<Outcome>) {
    && Counting(r) && saved <= prev <= r.appliedSeq && start <= r.appliedSeq <= |log|
    && |outcomes| == r.appliedSeq - start
    && forall i :: 0 <= i < |outcomes| ==> outcomes[i].entry == log[start + i]
  }

  function CountOf(attempts: seq<Attempt>, seqNo: nat, ok: bool): nat {
    if attempts == [] then 0
    else CountOf(attempts[..|attempts| - 1], seqNo, ok) + if attempts[|attempts| - 1] == Attempt(seqNo, ok) then 1 else 0
  }

  /** Every entry behind the replica was applied once after fewer than five failures, or set aside after exactly five. */
  ghost predicate TriedOk(attempts: seq<Attempt>, start: nat, r: Replica, outcomes: seq<Outcome>, k: nat) {
    var fails, oks := CountOf(attempts, k, false), CountOf(attempts, k, true);
    if k <= start || k > r.appliedSeq then
      oks == 0 && fails == if k == r.failSeq && k > start then r.failCount else 0
    else
      0 <= k - start - 1 < |outcomes|
      && if outcomes[k - start - 1].Applied? then oks == 1 && fails < MAX_APPLY_ATTEMPTS
         else oks == 0 && fails == MAX_APPLY_ATTEMPTS
  }

  ghost predicate AttemptsOk(attempts: seq<Attempt>, start: nat, r: Replica, outcomes: seq<Outcome>) {
    forall k: nat :: TriedOk(attempts, start, r, outcomes, k)
  }

  ghost predicate Inv(s: System, known: bool) {
    && PrimaryOk(s.log, s.stage, s.primary) && Fanned(s) >= 0
    && ReplicaOk(s.log, s.replica, s.saved, s.prev, s.start, s.outcomes)
    && AttemptsOk(s.attempts, s.start, s.replica, s.outcomes)
    && (s.conn.Some? ==>
          && s.conn.value.id in s.primary.replicas
          && ConnOk(s.log, s.conn.value)
          && ChannelOk(s.log, Fanned(s), s.primary.replicas[s.conn.value.id], s.conn.value, known))
  }

  // ----- every step keeps it

  lemma MoreLog(log: seq<WALEntry>, e: WALEntry, q: seq<WALEntry>)
    ensures AllInTheLog(log, q) ==> AllInTheLog(log + [e], q)
    ensures WireOk(log, q) ==> WireOk(log + [e], q)
  {
  }

  lemma WriteKeeps(s: System, op: Op, docID: gostring, body: seq<byte>, known: bool)
    requires Inv(s, known) && Enabled(s, Write(op, docID, body))
    ensures Inv(Step(s, Write(op, docID, body), known), known)
  {
    hide AttemptsOk, Counting, AllInTheLog, WireOk;
    var s' := Step(s, Write(op, docID, body), known);
    var e := s'.stage.entry;
    assert forall i :: 0 <= i < |s.log| ==> s'.log[i] == s.log[i];
    forall id | id in s.primary.replicas ensures AllInTheLog(s'.log, s.primary.replicas[id]) {
      MoreLog(s.log, e, s.primary.replicas[id]);
    }
    if s.conn.Some? {
      var c := s.conn.value;
      MoreLog(s.log, e, c.wire);
      SameStretch(s.log, e, c.fromSeq, c.lastSent);
      if !c.dropped { SameStretch(s.log, e, c.taken, |s.log|); }
    }
  }

  lemma SameStretch(log: seq<WALEntry>, e: WALEntry, from: nat, to: nat)
    requires from <= to <= |log|
    ensures (log + [e])[from..to] == log[from..to]
  {
  }

  lemma StoreKeeps(s: System, known: bool)
    requires Inv(s, known) && Enabled(s, StoreInRing)
    ensures Inv(Step(s, StoreInRing, known), known)
  {
    hide AttemptsOk, ReplicaOk, ConnOk, ChannelOk, AllInTheLog;
  }

  lemma FanOutKeeps(s: System, known: bool)
    requires Inv(s, known) && Enabled(s, FanOut)
    ensures Inv(Step(s, FanOut, known), known)
  {
    hide AttemptsOk, ReplicaOk, ConnOk, AllInTheLog, InTheLog, IsLog;
    var s' := Step(s, FanOut, known);
    var e := s.stage.entry;
    LastInTheLog(s.log);
    forall id | id in s'.primary.replicas ensures AllInTheLog(s.log, s'.primary.replicas[id]) {
      OfferedInTheLog(s.log, s.primary.replicas[id], e);
    }
    DroppedSame(s);
    if s.conn.Some? {
      var c := s.conn.value;
      if !c.dropped { OneLonger(s.log, c.taken); }
    }
  }

  lemma LastInTheLog(log: seq<WALEntry>)
    requires IsLog(log)
    ensures log != [] ==> InTheLog(log, log[|log| - 1])
  {
  }

  lemma OfferedInTheLog(log: seq<WALEntry>, q: seq<WALEntry>, e: WALEntry)
    requires AllInTheLog(log, q) && InTheLog(log, e)
    ensures AllInTheLog(log, Offered(q, e))
  {
    hide InTheLog;
  }

  lemma OneLonger(log: seq<WALEntry>, from: nat)
    ensures from < |log| ==> log[from..|log| - 1] + [log[|log| - 1]] == log[from..|log|]
  {
  }

  /** Marking a connection changes nothing else of it. */
  lemma DroppedSame(s: System)
    ensures s.conn.Some? && ConnOk(s.log, s.conn.value) ==> ConnOk(s.log, s.conn.value.(dropped := true))
  {
  }

  lemma RestartPrimaryKeeps(s: System, known: bool)
    requires Inv(s, known)
    ensures Inv(Step(s, RestartPrimary, known), known)
  {
    hide AttemptsOk, ReplicaOk;
  }

  lemma ConnectKeeps(s: System, known: bool)
    requires Inv(s, known) && Enabled(s, Connect)
    ensures Inv(Step(s, Connect, known), known)
  {
    hide AttemptsOk;
    var s' := Step(s, Connect, known);
    assert s'.primary.replicas[s'.conn.value.id] == [];
    assert s.log[Fanned(s)..Fanned(s)] == [];
  }

  lemma DisconnectKeeps(s: System, known: bool)
    requires Inv(s, known)
    ensures Inv(Disconnected(s), known)
  {
    hide AttemptsOk, ReplicaOk, ConnOk, ChannelOk, AllInTheLog;
  }

  /** Sending a log entry keeps the stream an exact stretch of the log. */
  lemma SendKeeps(log: seq<WALEntry>, c: Conn, e: WALEntry, live: bool, next: Phase)
    requires IsLog(log) && InTheLog(log, e) && ConnOk(log, c) && !next.Over?
    requires next.Live? ==> c.phase.Live?
    ensures var c' := SendOn(c, e, live, next);
            && ConnOk(log, c') && c.lastSent <= c'.lastSent
            && c'.id == c.id && c'.fromSeq == c.fromSeq && c'.lastAtStart == c.lastAtStart && c'.taken == c.taken && c'.dropped == c.dropped
            && (c'.phase == next || c'.phase.Over?)
            && (c'.phase == next ==> e.seqNo <= c'.lastSent)
  {
    if e.seqNo == c.lastSent + 1 {
      assert log[c.fromSeq..e.seqNo] == log[c.fromSeq..c.lastSent] + [e];
    }
  }

  lemma CatchUpKeeps(s: System, a: Action, known: bool)
    requires Inv(s, known) && Enabled(s, a)
    requires a.ReadLastSeq? || a.ScanEnd? || a.RingEnd? || a.SendHeartbeat?
    ensures Inv(Step(s, a, known), known)
  {
    hide AttemptsOk, ReplicaOk, PrimaryOk;
  }

  lemma CatchUpSendKeeps(s: System, a: Action, known: bool)
    requires Inv(s, known) && Enabled(s, a) && (a.ScanSend? || a.RingStep?)
    ensures Inv(Step(s, a, known), known)
  {
    hide Inv, Step;
    if a.ScanSend? { ScanSendKeeps(s, a.at, known); } else { RingStepKeeps(s, known); }
  }

  lemma ScanSendKeeps(s: System, at: nat, known: bool)
    requires Inv(s, known) && Enabled(s, ScanSend(at))
    ensures Inv(Step(s, ScanSend(at), known), known)
  {
    hide AttemptsOk, ReplicaOk, AllInTheLog, WireOk, ConnOk, SendOn, RingEntry;
    SendKeeps(s.log, s.conn.value, s.log[at], false, Scanning(at + 1));
  }

  lemma RingStepKeeps(s: System, known: bool)
    requires Inv(s, known) && Enabled(s, RingStep)
    ensures Inv(Step(s, RingStep, known), known)
  {
    hide AttemptsOk, ReplicaOk, AllInTheLog, WireOk, ConnOk, SendOn;
    var c := s.conn.value;
    var e := RingEntry(s.primary, c.phase.next);
    var next := Ring(c.phase.next + 1, c.phase.head);
    if e.Some? {
      SendKeeps(s.log, c, e.value, false, next);
    } else {
      SameButPhase(s.log, c, next);
    }
  }

  lemma SameButPhase(log: seq<WALEntry>, c: Conn, next: Phase)
    requires ConnOk(log, c) && !next.Live?
    ensures ConnOk(log, c.(phase := next))
  {
  }

  lemma LiveKeeps(s: System, known: bool)
    requires Inv(s, known) && Enabled(s, LiveSend)
    ensures Inv(Step(s, LiveSend, known), known)
  {
    hide AttemptsOk, ReplicaOk, AllInTheLog, ConnOk, InTheLog;
    var c, q := s.conn.value, Queue(s);
    QueueHead(s.log, q);
    SendKeeps(s.log, c, q[0], true, Live);
    SameButTaken(s.log, SendOn(c, q[0], true, Live), q[0].seqNo);
    if !c.dropped {
      assert q[0] == s.log[c.taken] && q[1..] == s.log[c.taken + 1..Fanned(s)];
    }
  }

  lemma SameButTaken(log: seq<WALEntry>, c: Conn, taken: nat)
    requires ConnOk(log, c)
    ensures ConnOk(log, c.(taken := taken))
  {
  }

  lemma QueueHead(log: seq<WALEntry>, q: seq<WALEntry>)
    requires AllInTheLog(log, q) && q != []
    ensures AllInTheLog(log, q[1..])
    ensures InTheLog(log, q[0])
  {
  }

  lemma WireKeeps(s: System, a: Action, known: bool)
    requires Inv(s, known) && Enabled(s, a) && (a.Lose? || a.Repeat?)
    ensures Inv(Step(s, a, known), known)
  {
    hide AttemptsOk, ReplicaOk, PrimaryOk, InTheLog;
  }

  lemma CountSnoc(attempts: seq<Attempt>, a: Attempt, seqNo: nat, ok: bool)
    ensures CountOf(attempts + [a], seqNo, ok) == CountOf(attempts, seqNo, ok) + if a == Attempt(seqNo, ok) then 1 else 0
  {
    assert (attempts + [a])[..|attempts|] == attempts;
  }

  /** One more attempt at the next entry keeps the tally of every entry. */
  lemma AttemptKeeps(attempts: seq<Attempt>, start: nat, r: Replica, outcomes: seq<Outcome>, e: WALEntry, applies: bool, k: nat)
    requires Counting(r) && start <= r.appliedSeq && |outcomes| == r.appliedSeq - start
    requires e.op != Heartbeat && e.seqNo == r.appliedSeq + 1
    requires TriedOk(attempts, start, r, outcomes, k)
    ensures var r' := Receive(r, e, applies).replica;
            var outcomes' := if r'.appliedSeq != r.appliedSeq then outcomes + [if applies then Applied(e) else SetAside(e)] else outcomes;
            TriedOk(attempts + [Attempt(e.seqNo, applies)], start, r', outcomes', k)
  {
    CountSnoc(attempts, Attempt(e.seqNo, applies), k, true);
    CountSnoc(attempts, Attempt(e.seqNo, applies), k, false);
  }

  lemma ReceiveKeeps(s: System, e: WALEntry, applies: bool)
    requires ReplicaOk(s.log, s.replica, s.saved, s.prev, s.start, s.outcomes)
    requires e.op == Heartbeat || InTheLog(s.log, e)
    ensures var r' := Receive(s.replica, e, applies).replica;
            var outcomes' := if r'.appliedSeq != s.replica.appliedSeq
                             then s.outcomes + [if applies then Applied(e) else SetAside(e)] else s.outcomes;
            ReplicaOk(s.log, r', s.saved, s.prev, s.start, outcomes')
  {
    hide Receive, Counting;
    ReceiveCounts(s.replica, e, applies);
    var r' := Receive(s.replica, e, applies).replica;
    if r'.appliedSeq != s.replica.appliedSeq {
      OutcomeAdded(s.log, s.start, s.outcomes, if applies then Applied(e) else SetAside(e));
    }
  }

  lemma OutcomeAdded(log: seq<WALEntry>, start: nat, outcomes: seq<Outcome>, o: Outcome)
    requires start + |outcomes| < |log| && o.entry == log[start + |outcomes|]
    requires forall i :: 0 <= i < |outcomes| ==> outcomes[i].entry == log[start + i]
    ensures forall i :: 0 <= i < |outcomes + [o]| ==> (outcomes + [o])[i].entry == log[start + i]
  {
  }

  /** Trying the next entry keeps every tally. */
  lemma TriesKeep(s: System, e: WALEntry, applies: bool)
    requires ReplicaOk(s.log, s.replica, s.saved, s.prev, s.start, s.outcomes)
    requires AttemptsOk(s.attempts, s.start, s.replica, s.outcomes)
    requires e.op != Heartbeat && e.seqNo == s.replica.appliedSeq + 1
    ensures var r' := Receive(s.replica, e, applies).replica;
            var outcomes' := if r'.appliedSeq != s.replica.appliedSeq
                             then s.outcomes + [if applies then Applied(e) else SetAside(e)] else s.outcomes;
            AttemptsOk(s.attempts + [Attempt(e.seqNo, applies)], s.start, r', outcomes')
  {
    hide TriedOk, CountOf, Receive, Counting;
    var r' := Receive(s.replica, e, applies).replica;
    var outcomes' := if r'.appliedSeq != s.replica.appliedSeq
                     then s.outcomes + [if applies then Applied(e) else SetAside(e)] else s.outcomes;
    forall k: nat ensures TriedOk(s.attempts + [Attempt(e.seqNo, applies)], s.start, r', outcomes', k) {
      AttemptKeeps(s.attempts, s.start, s.replica, s.outcomes, e, applies, k);
    }
  }

  /** Any other message leaves the replica's counts alone. */
  lemma OthersLeave(r: Replica, e: WALEntry, applies: bool)
    requires e.op == Heartbeat || e.seqNo != r.appliedSeq + 1
    ensures var r' := Receive(r, e, applies).replica;
            r'.appliedSeq == r.appliedSeq && r'.failSeq == r.failSeq && r'.failCount == r.failCount
  {
  }

  lemma TalliesIgnore(attempts: seq<Attempt>, start: nat, r: Replica, r': Replica, outcomes: seq<Outcome>)
    requires AttemptsOk(attempts, start, r, outcomes)
    requires r'.appliedSeq == r.appliedSeq && r'.failSeq == r.failSeq && r'.failCount == r.failCount
    ensures AttemptsOk(attempts, start, r', outcomes)
  {
    hide CountOf;
    forall k: nat ensures TriedOk(attempts, start, r', outcomes, k) {
      assert TriedOk(attempts, start, r, outcomes, k);
    }
  }

  lemma DeliverKeeps(s: System, applies: bool, known: bool)
    requires Inv(s, known) && Enabled(s, Deliver(applies))
    ensures Inv(Step(s, Deliver(applies), known), known)
  {
    hide Receive, ReplicaOk, ConnOk, PrimaryOk, ChannelOk, InTheLog, AttemptsOk;
    var c := s.conn.value;
    var e := c.wire[0];
    WireHead(s.log, c);
    ReceiveKeeps(s, e, applies);
    if e.op != Heartbeat && e.seqNo == s.replica.appliedSeq + 1 {
      TriesKeep(s, e, applies);
    } else {
      OthersLeave(s.replica, e, applies);
      TalliesIgnore(s.attempts, s.start, s.replica, Receive(s.replica, e, applies).replica, s.outcomes);
    }
    Delivered(s, applies, known);
  }

  lemma WireHead(log: seq<WALEntry>, c: Conn)
    requires ConnOk(log, c) && c.wire != []
    ensures c.wire[0].op == Heartbeat || InTheLog(log, c.wire[0])
    ensures ConnOk(log, c.(wire := c.wire[1..]))
  {
  }

  /** The rest of a delivery: the message is gone, or the whole connection. */
  lemma Delivered(s: System, applies: bool, known: bool)
    requires Inv(s, known) && s.conn.Some? && s.conn.value.wire != []
    ensures var s' := AfterDeliver(s, applies);
            && PrimaryOk(s'.log, s'.stage, s'.primary) && Fanned(s') >= 0
            && (s'.conn.Some? ==>
                  && s'.conn.value.id in s'.primary.replicas && ConnOk(s'.log, s'.conn.value)
                  && ChannelOk(s'.log, Fanned(s'), s'.primary.replicas[s'.conn.value.id], s'.conn.value, known))
  {
    hide AttemptsOk, ReplicaOk, InTheLog, ConnOk, Receive, ChannelOk, PrimaryOk, Unregistered;
    var c := s.conn.value;
    WireHead(s.log, c);
    WireTailSame(s.log, Fanned(s), s.primary.replicas[c.id], c, known);
    UnregisteredOk(s.log, s.stage, s.primary, c.id);
  }

  lemma WireTailSame(log: seq<WALEntry>, fanned: int, queue: seq<WALEntry>, c: Conn, known: bool)
    requires ChannelOk(log, fanned, queue, c, known) && c.wire != []
    ensures ChannelOk(log, fanned, queue, c.(wire := c.wire[1..]), known)
  {
  }

  lemma UnregisteredOk(log: seq<WALEntry>, stage: Stage, p: Primary, id: nat)
    requires PrimaryOk(log, stage, p)
    ensures PrimaryOk(log, stage, Unregistered(p, id))
  {
    hide AllInTheLog, InTheLog, IsLog;
  }

  lemma StreamEndKeeps(s: System, known: bool)
    requires Inv(s, known) && Enabled(s, StreamEnd)
    ensures Inv(Step(s, StreamEnd, known), known)
  {
    hide PrimaryOk, ChannelOk, ConnOk, CountOf;
    var status := s.conn.value.phase.status;
    var mid := s.(replica := Refused(s.replica, status));
    assert ReplicaOk(mid.log, mid.replica, mid.saved, mid.prev, mid.start, mid.outcomes);
    forall k: nat ensures TriedOk(s.attempts, s.start, mid.replica, s.outcomes, k) {
      assert TriedOk(s.attempts, s.start, s.replica, s.outcomes, k);
    }
    DisconnectKeeps(mid, known);
  }

  lemma NewProcessKeeps(s: System, saved: nat, known: bool)
    requires Inv(s, known) && saved <= s.replica.appliedSeq
    ensures Inv(NewProcess(s, saved), known)
  {
    hide PrimaryOk, ChannelOk, ConnOk;
    DisconnectKeeps(s, known);
    var r := Restarted(saved);
    forall k: nat ensures TriedOk([], saved, r, [], k) {
    }
  }

  lemma RestartKeeps(s: System, a: Action, known: bool)
    requires Inv(s, known) && (a.RestartReplica? || a.CloseReplica?)
    ensures Inv(Step(s, a, known), known)
  {
    hide PrimaryOk, ChannelOk, ConnOk, AttemptsOk, NewProcess;
    NewProcessKeeps(s, if a.RestartReplica? then s.saved else s.replica.appliedSeq, known);
  }

  /** Every enabled step keeps the invariant. */
  lemma StepKeeps(s: System, a: Action, known: bool)
    requires Inv(s, known) && Enabled(s, a)
    ensures Inv(Step(s, a, known), known)
  {
    hide Inv, Step, Disconnected;
    match a {
      case Write(op, docID, body) => WriteKeeps(s, op, docID, body, known);
      case StoreInRing => StoreKeeps(s, known);
      case FanOut => FanOutKeeps(s, known);
      case RestartPrimary => RestartPrimaryKeeps(s, known);
      case Connect => ConnectKeeps(s, known);
      case ScanSend(_) => CatchUpSendKeeps(s, a, known);
      case RingStep => CatchUpSendKeeps(s, a, known);
      case ReadLastSeq => CatchUpKeeps(s, a, known);
      case ScanEnd => CatchUpKeeps(s, a, known);
      case RingEnd => CatchUpKeeps(s, a, known);
      case SendHeartbeat => CatchUpKeeps(s, a, known);
      case LiveSend => LiveKeeps(s, known);
      case Break => BreakKeeps(s, known);
      case Lose(_) => WireKeeps(s, a, known);
      case Repeat(_) => WireKeeps(s, a, known);
      case Deliver(applies) => DeliverKeeps(s, applies, known);
      case StreamEnd => StreamEndKeeps(s, known);
      case SaveTick => SaveKeeps(s, known);
      case RestartReplica => RestartKeeps(s, a, known);
      case CloseReplica => RestartKeeps(s, a, known);
      case Abandon => AbandonKeeps(s, known);
      case OtherConnects => OthersKeep(s, a, known);
      case OtherTakes(_) => OthersKeep(s, a, known);
      case OtherLeaves(_) => OthersKeep(s, a, known);
    }
  }

  lemma AbandonKeeps(s: System, known: bool)
    requires Inv(s, known) && Enabled(s, Abandon)
    ensures Inv(Step(s, Abandon, known), known)
  {
    hide PrimaryOk, ReplicaOk, ChannelOk, ConnOk, AttemptsOk;
  }

  /** Other connections come, read and go, and the replica's own is none of theirs. */
  lemma OthersKeep(s: System, a: Action, known: bool)
    requires Inv(s, known) && Enabled(s, a) && (a.OtherConnects? || a.OtherTakes? || a.OtherLeaves?)
    ensures Inv(Step(s, a, known), known)
  {
    hide ReplicaOk, ChannelOk, ConnOk, AttemptsOk, AllInTheLog, InTheLog, IsLog;
    if a.OtherTakes? { QueueHead(s.log, s.primary.replicas[a.id]); }
    EmptyInTheLog(s.log);
  }

  lemma EmptyInTheLog(log: seq<WALEntry>)
    ensures AllInTheLog(log, [])
  {
  }

  lemma BreakKeeps(s: System, known: bool)
    requires Inv(s, known) && Enabled(s, Break)
    ensures Inv(Step(s, Break, known), known)
  {
    hide Inv, Disconnected;
    DisconnectKeeps(s, known);
  }

  lemma SaveKeeps(s: System, known: bool)
    requires Inv(s, known)
    ensures Inv(Step(s, SaveTick, known), known)
  {
    hide PrimaryOk, ChannelOk, ConnOk, AttemptsOk;
  }

  // ----- whole runs

  /** A primary with some log, nothing connected, and a replica that was seeded at or below the log's end. */
  ghost predicate Initial(s: System) {
    && IsLog(s.log) && s.stage.Idle? && s.conn.None? && s.outcomes == [] && s.attempts == []
    && s.primary == Primary(seq(RING_BUFFER_SIZE, _ => None), 0, map[], 0)
    && s.start <= |s.log| && s.replica == Restarted(s.start) && s.saved == s.prev == s.start
  }

  ghost predicate IsRun(states: seq<System>, actions: seq<Action>, known: bool) {
    && |states| == |actions| + 1 && Initial(states[0])
    && forall i :: 0 <= i < |actions| ==> Enabled(states[i], actions[i]) && states[i + 1] == Step(states[i], actions[i], known)
  }

  lemma InitialOk(s: System, known: bool)
    requires Initial(s)
    ensures Inv(s, known)
  {
    forall k: nat ensures TriedOk(s.attempts, s.start, s.replica, s.outcomes, k) {
    }
  }

  lemma {:induction false} RunKeeps(states: seq<System>, actions: seq<Action>, known: bool, i: nat)
    requires IsRun(states, actions, known) && i < |states|
    ensures Inv(states[i], known)
  {
    hide Inv, Enabled, Step, Initial;
    if i == 0 {
      InitialOk(states[0], known);
    } else {
      RunKeeps(states, actions, known, i - 1);
      StepKeeps(states[i - 1], actions[i - 1], known);
      var before := i - 1;
      assert states[before + 1] == Step(states[before], actions[before], known);
    }
  }
}
