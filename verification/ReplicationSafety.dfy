/** What every run of replication guarantees (internal/replication). */
module ReplicationSafety {
  import opened Options
  import opened Bits
  import opened Replication
  import opened ReplicationRun

  /**
   In every state of every run the running replica has handled exactly the log
   entries after the one it started from, up to appliedSeq: each once, in order,
   each either applied or set aside.
   */
  lemma HandledIsTheLog(states: seq<System>, actions: seq<Action>, known: bool, i: nat)
    requires IsRun(states, actions, known) && i < |states|
    ensures var s := states[i];
            && s.start <= s.replica.appliedSeq <= |s.log| && |s.outcomes| == s.replica.appliedSeq - s.start
            && forall k :: 0 <= k < |s.outcomes| ==> s.outcomes[k].entry == s.log[s.start + k] && s.outcomes[k].entry.seqNo == s.start + k + 1
  {
    RunKeeps(states, actions, known, i);
  }

  /**
   An entry is set aside exactly when it failed five times; an applied entry was
   applied once, after fewer failures; an entry ahead was never applied.
   */
  lemma SetAsideAfterFive(states: seq<System>, actions: seq<Action>, known: bool, i: nat, k: nat)
    requires IsRun(states, actions, known) && i < |states| && k < |states[i].outcomes|
    ensures var s := states[i];
            var seqNo := s.start + k + 1;
            && (s.outcomes[k].SetAside? <==> CountOf(s.attempts, seqNo, false) == 5) && CountOf(s.attempts, seqNo, false) <= 5
            && CountOf(s.attempts, seqNo, true) == if s.outcomes[k].Applied? then 1 else 0
  {
    hide PrimaryOk, ConnOk, ChannelOk;
    RunKeeps(states, actions, known, i);
    assert TriedOk(states[i].attempts, states[i].start, states[i].replica, states[i].outcomes, states[i].start + k + 1);
  }

  /** Counts never leak: an entry ahead of the replica was never applied, and only the next one has failures. */
  lemma NothingAheadWasTried(states: seq<System>, actions: seq<Action>, known: bool, i: nat, seqNo: nat)
    requires IsRun(states, actions, known) && i < |states| && seqNo > states[i].replica.appliedSeq
    ensures var s := states[i];
            && CountOf(s.attempts, seqNo, true) == 0 && CountOf(s.attempts, seqNo, false) < MAX_APPLY_ATTEMPTS
            && (seqNo > s.replica.appliedSeq + 1 ==> CountOf(s.attempts, seqNo, false) == 0)
            && (seqNo == s.replica.failSeq ==> CountOf(s.attempts, seqNo, false) == s.replica.failCount)
  {
    hide PrimaryOk, ConnOk, ChannelOk;
    RunKeeps(states, actions, known, i);
    assert TriedOk(states[i].attempts, states[i].start, states[i].replica, states[i].outcomes, seqNo);
  }

  /** The step ends the replica process and starts another. */
  ghost predicate EndsProcess(a: Action) {
    a.RestartReplica? || a.CloseReplica?
  }

  /**
   One step: the log only grows, and only a crash of the replica lowers
   appliedSeq, to what was saved; a graceful close keeps it.
   */
  lemma StepMonotone(s: System, a: Action, known: bool)
    requires Inv(s, known) && Enabled(s, a)
    ensures var s' := Step(s, a, known);
            && s.log <= s'.log
            && (!EndsProcess(a) ==> s.replica.appliedSeq <= s'.replica.appliedSeq && s'.start == s.start && s.outcomes <= s'.outcomes)
            && (a.RestartReplica? ==> s'.replica.appliedSeq == s'.start == s.saved <= s.replica.appliedSeq)
            && (a.CloseReplica? ==> s'.replica.appliedSeq == s'.start == s'.saved == s.replica.appliedSeq)
  {
    hide Step, Enabled, Inv;
    LogGrows(s, a, known);
    if EndsProcess(a) { ProcessEnds(s, a, known); } else { ReplicaKeeps(s, a, known); }
  }

  lemma LogGrows(s: System, a: Action, known: bool)
    requires Enabled(s, a)
    ensures s.log <= Step(s, a, known).log
  {
    hide Receive, RingEntry, RingStart, Offered, Stored, Unregistered, SendOn;
  }

  lemma ReplicaKeeps(s: System, a: Action, known: bool)
    requires Inv(s, known) && Enabled(s, a) && !EndsProcess(a)
    ensures var s' := Step(s, a, known);
            s.replica.appliedSeq <= s'.replica.appliedSeq && s'.start == s.start && s.outcomes <= s'.outcomes
  {
    hide PrimaryOk, ConnOk, ChannelOk, AttemptsOk, Receive, RingEntry, RingStart, Offered, Stored, Unregistered, SendOn, Counting;
    if a.Deliver? { ReceiveCounts(s.replica, s.conn.value.wire[0], a.applies); }
  }

  lemma ProcessEnds(s: System, a: Action, known: bool)
    requires Inv(s, known) && Enabled(s, a) && EndsProcess(a)
    ensures var s' := Step(s, a, known);
            && (a.RestartReplica? ==> s'.replica.appliedSeq == s'.start == s.saved <= s.replica.appliedSeq)
            && (a.CloseReplica? ==> s'.replica.appliedSeq == s'.start == s'.saved == s.replica.appliedSeq)
  {
    hide PrimaryOk, ConnOk, ChannelOk, AttemptsOk, Counting;
  }

  /** appliedSeq never falls while the replica process lives, and nothing it handled is taken back. */
  lemma {:induction false} NeverFalls(states: seq<System>, actions: seq<Action>, known: bool, i: nat, j: nat)
    requires IsRun(states, actions, known) && i <= j < |states|
    requires forall k :: i <= k < j ==> !EndsProcess(actions[k])
    ensures states[i].replica.appliedSeq <= states[j].replica.appliedSeq && states[i].log <= states[j].log
    ensures states[i].outcomes <= states[j].outcomes
  {
    hide Inv, Enabled, Step, Initial;
    if i < j {
      var before := j - 1;
      NeverFalls(states, actions, known, i, before);
      RunKeeps(states, actions, known, before);
      assert states[before + 1] == Step(states[before], actions[before], known);
      StepMonotone(states[before], actions[before], known);
    }
  }

  /**
   Across restarts too: every sequence number up to appliedSeq lay, in some
   state reached so far, in what the replica process of that time had handled.
   So no entry is ever passed over, whatever was saved when.
   */
  lemma {:induction false} EverHandled(states: seq<System>, actions: seq<Action>, known: bool, i: nat, seqNo: nat) returns (k: nat)
    requires IsRun(states, actions, known) && i < |states|
    requires states[0].start < seqNo <= states[i].replica.appliedSeq
    ensures k <= i && states[k].start < seqNo <= states[k].replica.appliedSeq <= |states[k].log|
    ensures |states[k].outcomes| == states[k].replica.appliedSeq - states[k].start
    ensures seqNo <= |states[i].log| && states[k].outcomes[seqNo - states[k].start - 1].entry == states[i].log[seqNo - 1]
  {
    hide Inv, Enabled, Step, Initial;
    HandledIsTheLog(states, actions, known, i);
    if states[i].start < seqNo {
      k := i;
    } else {
      var before := i - 1;
      RunKeeps(states, actions, known, before);
      assert states[before + 1] == Step(states[before], actions[before], known);
      StepMonotone(states[before], actions[before], known);
      HandledIsTheLog(states, actions, known, before);
      k := EverHandled(states, actions, known, before, seqNo);
    }
  }

  // ----- gaps, refusals and saving

  /**
   A message that is not the replica's next ends the stream when it lies beyond
   it: no connection is left, its channel is gone from the primary, and the
   replica stands where it stood, so that it asks again for what it missed.
   */
  lemma GapDisconnects(states: seq<System>, actions: seq<Action>, known: bool, i: nat)
    requires IsRun(states, actions, known) && i < |actions| && actions[i].Deliver?
    requires Enabled(states[i], actions[i]) && var e := states[i].conn.value.wire[0]; e.op != Heartbeat && e.seqNo > states[i].replica.appliedSeq + 1
    ensures var s, s' := states[i], states[i + 1];
            s'.conn.None? && s.conn.value.id !in s'.primary.replicas && s'.replica == s.replica && s'.outcomes == s.outcomes && s'.attempts == s.attempts
  {
    hide Receive, Unregistered;
    var s, next := states[i], i + 1;
    assert states[next] == Step(s, actions[i], known);
    GapStops(s.replica, s.conn.value.wire[0], actions[i].applies);
    LeavesOthers(s.primary, s.conn.value.id);
  }

  /** A stream goes on after any other message, but for an entry whose application failed fewer than five times. */
  lemma OthersGoOn(states: seq<System>, actions: seq<Action>, known: bool, i: nat)
    requires IsRun(states, actions, known) && i < |actions| && actions[i].Deliver? && Enabled(states[i], actions[i])
    requires var e := states[i].conn.value.wire[0];
             e.op == Heartbeat || e.seqNo <= states[i].replica.appliedSeq || (e.seqNo == states[i].replica.appliedSeq + 1 && actions[i].applies)
    ensures var s, s' := states[i], states[i + 1];
            s'.conn == Some(s.conn.value.(wire := s.conn.value.wire[1..])) && s'.primary == s.primary
  {
    hide Receive, PrimaryOk, ConnOk, ChannelOk, AttemptsOk;
    var s, next := states[i], i + 1;
    assert states[next] == Step(s, actions[i], known);
    RunKeeps(states, actions, known, i);
    var e := s.conn.value.wire[0];
    if e.op == Heartbeat || e.seqNo <= s.replica.appliedSeq {
      OldIgnored(s.replica, e, actions[i].applies);
    } else {
      NextMovesOrStops(s.replica, e, actions[i].applies);
    }
  }

  /**
   A replica that was told to re-seed says so until it handles an entry again or
   its process ends, and no other step makes it say so.
   */
  lemma ResyncStep(s: System, a: Action, known: bool)
    requires Inv(s, known) && Enabled(s, a) && !EndsProcess(a)
    ensures var s' := Step(s, a, known);
            s'.replica.needsResync <==>
              (a.StreamEnd? && s.conn.value.phase.status == FailedPrecondition)
              || (s.replica.needsResync && s'.replica.appliedSeq == s.replica.appliedSeq)
  {
    hide PrimaryOk, ConnOk, ChannelOk, AttemptsOk, Receive, RingEntry, RingStart, Offered, Stored, Unregistered, Registered, SendOn, CountOf;
    if a.Deliver? {
      var e := s.conn.value.wire[0];
      if e.op == Heartbeat || e.seqNo <= s.replica.appliedSeq {
        OldIgnored(s.replica, e, a.applies);
      } else if e.seqNo > s.replica.appliedSeq + 1 {
        GapStops(s.replica, e, a.applies);
      } else {
        NextMovesOrStops(s.replica, e, a.applies);
      }
    }
  }

  /** Two ticks of the save loop in a row put on disk what was handled at the first. */
  lemma TwoTicksSave(s: System, known: bool)
    ensures Step(Step(s, SaveTick, known), SaveTick, known).saved == s.replica.appliedSeq
  {
  }

  /**
   No step of a stream, of its replica or of its end touches the channel of
   another connection; only an append adds to it, only its own stream takes from
   it, and only its own end or a restart of the primary removes it.
   */
  lemma OthersUntouched(s: System, a: Action, known: bool, id: nat)
    requires Inv(s, known) && Enabled(s, a) && Other(s, id) && !a.RestartPrimary? && a != OtherLeaves(id)
    ensures var s', q := Step(s, a, known), s.primary.replicas[id];
            && id in s'.primary.replicas
            && (a.Abandon? || Other(s', id))
            && s'.primary.replicas[id] == if a.FanOut? && |q| < 256 then q + [s.stage.entry] else if a == OtherTakes(id) then q[1..] else q
  {
    hide Step, Enabled;
    NewOrSameStream(s, a, known);
    ChannelStays(s, a, known, id);
  }

  lemma NewOrSameStream(s: System, a: Action, known: bool)
    requires Enabled(s, a)
    ensures var s' := Step(s, a, known);
            s'.conn.Some? ==> if a.Connect? then s'.conn.value.id == s.primary.nextID + 1 else s.conn.Some? && s'.conn.value.id == s.conn.value.id
  {
    hide Receive, RingEntry, RingStart, Stored, Offered;
  }

  lemma ChannelStays(s: System, a: Action, known: bool, id: nat)
    requires Inv(s, known) && Enabled(s, a) && Other(s, id) && !a.RestartPrimary? && a != OtherLeaves(id)
    ensures var s', q := Step(s, a, known), s.primary.replicas[id];
            && id in s'.primary.replicas
            && s'.primary.replicas[id] == if a.FanOut? && |q| < 256 then q + [s.stage.entry] else if a == OtherTakes(id) then q[1..] else q
  {
    hide ConnOk, ChannelOk, AttemptsOk, ReplicaOk, Receive, RingEntry, RingStart, SendOn, CountOf, AllInTheLog, InTheLog, IsLog;
  }

  /** What the ring's head says of the log: nothing yet, or everything that was stored. */
  ghost predicate HeadFits(s: System) {
    s.primary.head == 0 || s.primary.head == |s.log| + if s.stage.InLog? then 0 else 1
  }

  lemma HeadStep(s: System, a: Action, known: bool)
    requires Inv(s, known) && Enabled(s, a) && HeadFits(s)
    ensures HeadFits(Step(s, a, known))
  {
    hide AttemptsOk, ReplicaOk, ConnOk, ChannelOk, Receive, RingEntry;
  }

  /** The ring's head follows the log, restarts of the primary aside. */
  lemma {:induction false} HeadTracksLog(states: seq<System>, actions: seq<Action>, known: bool, i: nat)
    requires IsRun(states, actions, known) && i < |states|
    ensures HeadFits(states[i])
  {
    hide Inv, Enabled, Step;
    if i > 0 {
      var before := i - 1;
      HeadTracksLog(states, actions, known, before);
      RunKeeps(states, actions, known, before);
      assert states[before + 1] == Step(states[before], actions[before], known);
      HeadStep(states[before], actions[before], known);
    }
  }

  // ----- the handover from catch-up to live

  /** The stream of s and that of t are the same one. */
  ghost predicate SameStream(s: System, t: System) {
    s.conn.Some? && t.conn.Some? && s.conn.value.id == t.conn.value.id && s.conn.value.fromSeq == t.conn.value.fromSeq
  }

  /** A step that leaves a stream past its start leaves its number alone. */
  lemma StartStays(s: System, a: Action, known: bool)
    requires Enabled(s, a) && Step(s, a, known).conn.Some? && !Step(s, a, known).conn.value.phase.Starting? && !a.ReadLastSeq?
    ensures s.conn.Some? && SameStream(s, Step(s, a, known)) && !s.conn.value.phase.Starting?
    ensures s.conn.value.lastAtStart == Step(s, a, known).conn.value.lastAtStart
  {
    hide Receive, RingEntry, Offered;
  }

  /**
   The number a stream must reach before it goes live is the end of the log at
   the step where this very stream read it.
   */
  lemma {:induction false} StartIsTheLogsEnd(states: seq<System>, actions: seq<Action>, i: nat) returns (j: nat)
    requires IsRun(states, actions, true) && i < |states|
    requires states[i].conn.Some? && !states[i].conn.value.phase.Starting?
    ensures j < i && actions[j].ReadLastSeq? && SameStream(states[j], states[i]) && states[j].conn.value.phase.Starting?
    ensures states[i].conn.value.lastAtStart == |states[j].log|
  {
    hide Inv, Step, Enabled, SameStream;
    StartsWithoutStream(states, actions);
    var before := i - 1;
    assert Enabled(states[before], actions[before]) && states[before + 1] == Step(states[before], actions[before], true);
    if actions[before].ReadLastSeq? {
      j := before;
      ReadsTheEnd(states[before]);
    } else {
      StartStays(states[before], actions[before], true);
      j := StartIsTheLogsEnd(states, actions, before);
      SameTwice(states[j], states[before], states[i]);
    }
  }

  lemma StartsWithoutStream(states: seq<System>, actions: seq<Action>)
    requires IsRun(states, actions, true)
    ensures |states| > 0 && states[0].conn.None?
  {
  }

  lemma ReadsTheEnd(s: System)
    requires Enabled(s, ReadLastSeq)
    ensures SameStream(s, Step(s, ReadLastSeq, true)) && s.conn.value.phase.Starting?
    ensures Step(s, ReadLastSeq, true).conn.value.lastAtStart == |s.log|
  {
  }

  lemma SameTwice(s: System, t: System, u: System)
    requires SameStream(s, t) && SameStream(t, u)
    ensures SameStream(s, u)
  {
  }

  /**
   A stream that reaches the live phase has sent every sequence number after
   fromSeq up to the end of the log at the step where it read that number, once
   each and in order, whatever was overwritten meanwhile.
   */
  lemma NoSilentHole(states: seq<System>, actions: seq<Action>, i: nat)
    requires IsRun(states, actions, true) && i < |states|
    requires states[i].conn.Some? && states[i].conn.value.phase.Live?
    ensures var c := states[i].conn.value;
            && c.fromSeq <= c.lastSent <= |states[i].log|
            && c.sent == states[i].log[c.fromSeq..c.lastSent]
            && forall k :: 0 <= k < |c.sent| ==> c.sent[k].seqNo == c.fromSeq + k + 1
    ensures exists j :: 0 <= j < i && actions[j].ReadLastSeq? && SameStream(states[j], states[i])
                        && states[i].conn.value.lastAtStart == |states[j].log| <= states[i].conn.value.lastSent
  {
    hide SameStream, Step, Enabled;
    RunKeeps(states, actions, true, i);
    var j := StartIsTheLogsEnd(states, actions, i);
  }

  /**
   In the live phase the entry at the head of the channel was sent already, or
   is the next of the log and is forwarded, or lies beyond a gap and ends the
   stream with Unavailable: nothing is passed over silently.
   */
  lemma LiveForwardsOrEnds(states: seq<System>, actions: seq<Action>, known: bool, i: nat)
    requires IsRun(states, actions, known) && i < |states| && Enabled(states[i], LiveSend)
    ensures var s, s' := states[i], Step(states[i], LiveSend, known);
            var c, c', e := s.conn.value, s'.conn.value, Queue(s)[0];
            && (e.seqNo <= c.lastSent ==> c'.phase.Live? && c'.sent == c.sent && c'.lastSent == c.lastSent && c'.wire == c.wire)
            && (e.seqNo == c.lastSent + 1 ==>
                  c.lastSent < |s.log| && e == s.log[c.lastSent]
                  && c'.phase.Live? && c'.sent == c.sent + [e] && c'.lastSent == e.seqNo && c'.wire == c.wire + [e])
            && (e.seqNo > c.lastSent + 1 ==> c'.phase == Over(Unavailable) && c'.sent == c.sent && c'.wire == c.wire)
  {
    hide AttemptsOk, ReplicaOk;
    RunKeeps(states, actions, known, i);
    var s := states[i];
    QueueHead(s.log, Queue(s));
  }

  /** While its channel has lost nothing, a live stream does not end by itself. */
  lemma NoDropNoEnd(states: seq<System>, actions: seq<Action>, i: nat)
    requires IsRun(states, actions, true) && i < |states| && Enabled(states[i], LiveSend) && !states[i].conn.value.dropped
    ensures !Send(states[i].conn.value.lastSent, Queue(states[i])[0], true).Failed?
  {
    hide AttemptsOk, ReplicaOk;
    RunKeeps(states, actions, true, i);
    var s := states[i];
    assert Queue(s)[0] == s.log[s.conn.value.taken];
  }

  /** A live stream whose channel is empty and lost nothing has sent the whole log. */
  lemma DrainedIsCaughtUp(states: seq<System>, actions: seq<Action>, i: nat)
    requires IsRun(states, actions, true) && i < |states| && states[i].stage.Idle?
    requires states[i].conn.Some? && states[i].conn.value.phase.Live?
    requires Queue(states[i]) == [] && !states[i].conn.value.dropped
    ensures states[i].conn.value.lastSent == |states[i].log|
  {
    hide AttemptsOk, ReplicaOk;
    RunKeeps(states, actions, true, i);
  }

  // ----- gaps come from losses only

  /** The entries under way, heartbeats left out. */
  function Data(wire: seq<WALEntry>): seq<WALEntry> {
    if wire == [] then [] else (if wire[0].op == Heartbeat then [] else [wire[0]]) + Data(wire[1..])
  }

  lemma {:induction false} DataSnoc(wire: seq<WALEntry>, e: WALEntry)
    ensures Data(wire + [e]) == Data(wire) + if e.op == Heartbeat then [] else [e]
  {
    if wire != [] {
      DataSnoc(wire[1..], e);
      assert (wire + [e])[1..] == wire[1..] + [e];
    }
  }

  /** What is under way continues exactly where the replica stands. */
  ghost predicate WireExact(s: System) {
    s.conn.Some? ==> s.replica.appliedSeq <= s.conn.value.lastSent <= |s.log|
                     && Data(s.conn.value.wire) == s.log[s.replica.appliedSeq..s.conn.value.lastSent]
  }

  lemma WireStep(s: System, a: Action, known: bool)
    requires Inv(s, known) && Enabled(s, a) && !a.Lose? && !a.Repeat? && WireExact(s)
    ensures WireExact(Step(s, a, known))
  {
    hide Inv, Enabled, Step, WireExact;
    if a.Deliver? {
      WireDeliver(s, a.applies, known);
    } else if a.ScanSend? || a.RingStep? || a.LiveSend? {
      WireSend(s, a, known);
    } else if a.SendHeartbeat? {
      WireBeats(s, known);
    } else if a.Write? {
      WireWrites(s, a, known);
    } else {
      WireStays(s, a, known);
    }
  }

  lemma WireBeats(s: System, known: bool)
    requires Enabled(s, SendHeartbeat) && WireExact(s)
    ensures WireExact(Step(s, SendHeartbeat, known))
  {
    hide Data;
    DataSnoc(s.conn.value.wire, HeartbeatEntry());
  }

  lemma WireWrites(s: System, a: Action, known: bool)
    requires Enabled(s, a) && a.Write? && WireExact(s)
    ensures WireExact(Step(s, a, known))
  {
    hide Data;
    if s.conn.Some? {
      var from, upTo := s.replica.appliedSeq, s.conn.value.lastSent;
      assert Step(s, a, known).log[from..upTo] == s.log[from..upTo];
    }
  }

  /** Steps that leave wire, log and appliedSeq alone, start a stream or end one. */
  lemma WireStays(s: System, a: Action, known: bool)
    requires Inv(s, known) && Enabled(s, a) && WireExact(s) && !a.Lose? && !a.Repeat? && !a.Deliver? && !a.Write?
    requires !a.ScanSend? && !a.RingStep? && !a.LiveSend? && !a.SendHeartbeat?
    ensures WireExact(Step(s, a, known))
  {
    hide AttemptsOk, PrimaryOk, ConnOk, ChannelOk, Counting, RingEntry, RingStart, Offered, Stored, Unregistered;
    assert Data([]) == [];
  }

  lemma WireSend(s: System, a: Action, known: bool)
    requires Inv(s, known) && Enabled(s, a) && (a.ScanSend? || a.RingStep? || a.LiveSend?) && WireExact(s)
    ensures WireExact(Step(s, a, known))
  {
    hide AttemptsOk, ReplicaOk, ChannelOk, Data;
    var c := s.conn.value;
    var e := if a.ScanSend? then s.log[a.at] else if a.LiveSend? then Queue(s)[0] else
               var r := RingEntry(s.primary, c.phase.next); if r.Some? then r.value else HeartbeatEntry();
    DataSnoc(c.wire, e);
    if a.LiveSend? { QueueHead(s.log, Queue(s)); }
    if e.seqNo == c.lastSent + 1 {
      assert s.log[s.replica.appliedSeq..e.seqNo] == s.log[s.replica.appliedSeq..c.lastSent] + [e];
    }
  }

  lemma WireDeliver(s: System, applies: bool, known: bool)
    requires Inv(s, known) && Enabled(s, Deliver(applies)) && WireExact(s)
    ensures WireExact(Step(s, Deliver(applies), known))
    ensures var e := s.conn.value.wire[0]; e.op == Heartbeat || e.seqNo == s.replica.appliedSeq + 1
  {
    hide AttemptsOk, ReplicaOk, ChannelOk, ConnOk, Unregistered, Receive, AllInTheLog, InTheLog;
    var c := s.conn.value;
    var e := c.wire[0];
    var got := Receive(s.replica, e, applies);
    if e.op == Heartbeat {
      OthersLeave(s.replica, e, applies);
    } else {
      HeadOfData(c.wire, s.log, s.replica.appliedSeq, c.lastSent);
      NextMoves(s.replica, e, applies);
    }
  }

  lemma HeadOfData(wire: seq<WALEntry>, log: seq<WALEntry>, from: nat, to: nat)
    requires wire != [] && wire[0].op != Heartbeat && from <= to <= |log| && Data(wire) == log[from..to]
    ensures from < to && log[from] == wire[0] && Data(wire[1..]) == log[from + 1..to]
  {
    assert Data(wire) == [wire[0]] + Data(wire[1..]);
    assert log[from..to][0] == wire[0] && log[from..to][1..] == log[from + 1..to];
  }

  /** The next entry moves the replica, unless the stream is abandoned. */
  lemma NextMoves(r: Replica, e: WALEntry, applies: bool)
    requires e.op != Heartbeat && e.seqNo == r.appliedSeq + 1
    ensures var got := Receive(r, e, applies); got.stop || got.replica.appliedSeq == e.seqNo
  {
  }

  /** On a network that neither loses nor repeats messages, every message is a heartbeat or the entry the replica waits for. */
  lemma {:induction false} GapsNeedLoss(states: seq<System>, actions: seq<Action>, known: bool, i: nat)
    requires IsRun(states, actions, known) && i < |states|
    requires forall k :: 0 <= k < i ==> !actions[k].Lose? && !actions[k].Repeat?
    ensures WireExact(states[i])
    ensures states[i].conn.Some? && states[i].conn.value.wire != [] ==>
              var e := states[i].conn.value.wire[0]; e.op == Heartbeat || e.seqNo == states[i].replica.appliedSeq + 1
  {
    hide Step, Inv, Enabled, WireExact;
    if i == 0 {
      NothingUnderWay(states[0]);
    } else {
      var before := i - 1;
      GapsNeedLoss(states, actions, known, before);
      RunKeeps(states, actions, known, before);
      assert states[before + 1] == Step(states[before], actions[before], known);
      WireStep(states[before], actions[before], known);
    }
    RunKeeps(states, actions, known, i);
    if states[i].conn.Some? && states[i].conn.value.wire != [] { NextUnderWay(states[i], known); }
  }

  lemma NothingUnderWay(s: System)
    requires Initial(s)
    ensures WireExact(s)
  {
  }

  lemma NextUnderWay(s: System, known: bool)
    requires Inv(s, known) && WireExact(s) && s.conn.Some? && s.conn.value.wire != []
    ensures var e := s.conn.value.wire[0]; e.op == Heartbeat || e.seqNo == s.replica.appliedSeq + 1
  {
    hide Inv;
    WireDeliver(s, true, known);
  }
}
