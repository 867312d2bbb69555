/**
 When catching up succeeds (internal/replication/primary.go): what the ring
 holds of the log, and streams that find in it all they need.
 */
module ReplicationCatchUp {
  import opened Options
  import opened Bits
  import opened Replication
  import opened ReplicationRun
  import opened ReplicationSafety

  /** Entry n of the log lies in its ring slot. */
  ghost predicate Held(log: seq<WALEntry>, p: Primary, n: nat) {
    |p.ring| == 10000 && 1 <= n <= |log| && p.ring[n % 10000] == Some(log[n - 1])
  }

  /** In the scan too an entry was sent already, or is the next and is forwarded, or lies beyond a gap and ends the stream, to be re-seeded. */
  lemma ScanForwardsOrEnds(states: seq<System>, actions: seq<Action>, known: bool, i: nat, at: nat)
    requires IsRun(states, actions, known) && i < |states| && Enabled(states[i], ScanSend(at))
    ensures var s, s' := states[i], Step(states[i], ScanSend(at), known);
            var c, c' := s.conn.value, s'.conn.value;
            && (at + 1 <= c.lastSent ==> c'.phase == Scanning(at + 1) && c'.sent == c.sent && c'.lastSent == c.lastSent && c'.wire == c.wire)
            && (at == c.lastSent ==>
                  c'.phase == Scanning(at + 1) && c'.sent == c.sent + [s.log[at]] && c'.lastSent == at + 1 && c'.wire == c.wire + [s.log[at]])
            && (at > c.lastSent ==> c'.phase == Over(FailedPrecondition) && c'.sent == c.sent && c'.wire == c.wire)
  {
    hide AttemptsOk, ReplicaOk;
    RunKeeps(states, actions, known, i);
  }

  // ----- sources that follow

  /** Where a stream stands after a source: at the number of its last entry, unless it was past that. */
  function EndOf(from: nat, source: seq<WALEntry>): nat {
    if source == [] || source[|source| - 1].seqNo <= from then from else source[|source| - 1].seqNo
  }

  /** Every entry of the source was sent before or is the next one. */
  ghost predicate Follows(from: nat, source: seq<WALEntry>) {
    forall i :: 0 <= i < |source| ==> source[i].seqNo <= EndOf(from, source[..i]) + 1
  }

  lemma FollowsSnoc(from: nat, source: seq<WALEntry>, i: nat)
    requires i < |source| && Follows(from, source[..i])
    ensures Follows(from, source[..i + 1]) <==> source[i].seqNo <= EndOf(from, source[..i]) + 1
    ensures EndOf(from, source[..i + 1]) == if source[i].seqNo <= from then from else source[i].seqNo
    ensures source[i].seqNo > EndOf(from, source[..i]) + 1 ==> !Follows(from, source)
  {
    hide EndOf;
    var a, b := source[..i], source[..i + 1];
    SamePrefixes(source, i);
    LastEnds(from, source, i);
    if source[i].seqNo <= EndOf(from, a) + 1 {
      forall j | 0 <= j < |b| ensures b[j].seqNo <= EndOf(from, b[..j]) + 1 {
        if j < i { assert a[j] == b[j]; }
      }
    }
    assert b[i] == source[i];
  }

  lemma SamePrefixes(source: seq<WALEntry>, i: nat)
    requires i < |source|
    ensures forall j :: 0 <= j <= i ==> source[..i + 1][..j] == source[..j]
    ensures forall j :: 0 <= j < i ==> source[..i][..j] == source[..j]
  {
  }

  lemma LastEnds(from: nat, source: seq<WALEntry>, i: nat)
    requires i < |source|
    ensures EndOf(from, source[..i + 1]) == if source[i].seqNo <= from then from else source[i].seqNo
  {
    assert source[..i + 1][i] == source[i];
  }

  /** views[n] is the ring as the read of number n finds it; entry n is there then. */
  ghost predicate HeldAt(log: seq<WALEntry>, views: seq<Primary>, n: nat) {
    n < |views| && Held(log, views[n], n)
  }

  /** From entry from on, exactly the entries up to m are found in the ring. */
  ghost predicate RingGives(log: seq<WALEntry>, views: seq<Primary>, head: nat, from: nat, m: nat)
  {
    && from <= m && (m == from || m < head)
    && (forall n: nat :: from < n <= m ==> HeldAt(log, views, n)) && (forall n: nat :: m < n < head ==> !HeldAt(log, views, n))
  }

  /** What is found was stored within the last 10000 entries. */
  ghost predicate Recent(log: seq<WALEntry>, views: seq<Primary>, head: nat)
  {
    forall n: nat :: n < head && HeldAt(log, views, n) ==> head <= n + 10000
  }

  // ----- what the ring holds in every state of every run

  /** The ring holds nothing but entries of the last 10000; with one of them all later ones, and the newest. */
  ghost predicate RingFits(log: seq<WALEntry>, p: Primary) {
    && |p.ring| == 10000
    && (forall k :: 0 <= k < 10000 && p.ring[k].Some? ==>
          var q := p.ring[k].value.seqNo; q % 10000 == k && q < p.head <= q + 10000)
    && (p.head > 0 ==> Held(log, p, p.head - 1))
    && (forall n: nat {:trigger Held(log, p, n)} :: Held(log, p, n) && n + 1 < p.head ==> Held(log, p, n + 1))
  }

  lemma EmptyFits(log: seq<WALEntry>)
    ensures RingFits(log, Primary(seq(RING_BUFFER_SIZE, _ => None), 0, map[], 0))
  {
  }

  lemma HeldNumber(log: seq<WALEntry>, p: Primary, n: nat)
    requires IsLog(log) && Held(log, p, n)
    ensures p.ring[n % 10000].value.seqNo == n
  {
  }

  /** Storing the log's last entry, its predecessor being the newest stored so far. */
  lemma StoreFits(log: seq<WALEntry>, p: Primary)
    requires IsLog(log) && log != [] && RingFits(log, p) && (p.head == 0 || p.head == |log|)
    ensures RingFits(log, Stored(p, log[|log| - 1]))
  {
    hide IsLog;
    var m := |log|;
    LastNumber(log);
    var e := log[m - 1];
    var p' := Stored(p, e);
    forall k | 0 <= k < 10000 && p'.ring[k].Some?
      ensures var q := p'.ring[k].value.seqNo; q % 10000 == k && q < p'.head <= q + 10000
    {
      if k != m % 10000 { SlotApart(p.ring[k].value.seqNo, m); }
    }
    forall n: nat {:trigger Held(log, p', n)} | Held(log, p', n) && n + 1 < p'.head ensures Held(log, p', n + 1) {
      StoredNext(log, p, n);
    }
  }

  lemma LastNumber(log: seq<WALEntry>)
    requires IsLog(log) && log != []
    ensures log[|log| - 1].seqNo == |log|
  {
  }

  lemma SlotApart(q: nat, m: nat)
    requires q % 10000 != m % 10000 && q < m <= q + 10000
    ensures m + 1 <= q + 10000
  {
  }

  lemma StoredNext(log: seq<WALEntry>, p: Primary, n: nat)
    requires IsLog(log) && log != [] && RingFits(log, p) && (p.head == 0 || p.head == |log|)
    requires Held(log, Stored(p, log[|log| - 1]), n) && n < |log|
    ensures Held(log, Stored(p, log[|log| - 1]), n + 1)
  {
    var m := |log|;
    var p' := Stored(p, log[m - 1]);
    HeldNumber(log, p', n);
    assert Held(log, p, n) && n + 1 <= m <= n + 10000;
    if n + 1 < m {
      assert Held(log, p, n + 1);
      OtherSlot(n + 1, m);
    }
  }

  lemma LogGrowsFits(log: seq<WALEntry>, e: WALEntry, p: Primary)
    requires RingFits(log, p) && IsLog(log) && (forall k :: 0 <= k < |p.ring| && p.ring[k].Some? ==> InTheLog(log, p.ring[k].value))
    requires e.seqNo == |log| + 1
    ensures RingFits(log + [e], p)
  {
    var log' := log + [e];
    forall n: nat ensures Held(log', p, n) <==> Held(log, p, n) {
    }
  }

  ghost predicate Fits(s: System) { RingFits(s.log, s.primary) }

  lemma SameRingFits(log: seq<WALEntry>, p: Primary, p': Primary)
    requires RingFits(log, p) && p'.ring == p.ring && p'.head == p.head
    ensures RingFits(log, p')
  {
    forall n: nat ensures Held(log, p', n) <==> Held(log, p, n) {
    }
  }

  /** Only storing an entry and a restart of the primary change the ring. */
  lemma RingStays(s: System, a: Action, known: bool)
    requires Enabled(s, a) && !a.StoreInRing? && !a.RestartPrimary?
    ensures var s' := Step(s, a, known); s'.primary.ring == s.primary.ring && s'.primary.head == s.primary.head
    ensures !a.Write? ==> Step(s, a, known).log == s.log
  {
    hide Receive, RingEntry, RingStart, Offered;
  }

  lemma FitsStep(s: System, a: Action, known: bool)
    requires Inv(s, known) && Enabled(s, a) && HeadFits(s) && Fits(s)
    ensures Fits(Step(s, a, known))
  {
    hide RingFits, Step, ConnOk, ChannelOk, AttemptsOk, ReplicaOk, Stored;
    if a.StoreInRing? {
      StoreFits(s.log, s.primary);
      StoreStep(s, known);
    } else if a.RestartPrimary? {
      EmptyFits(s.log);
      RestartStep(s, known);
    } else {
      RingStays(s, a, known);
      if a.Write? {
        WriteStep(s, a, known);
        LogGrowsFits(s.log, WALEntry(|s.log| + 1, a.op, a.docID, a.body), s.primary);
      }
      SameRingFits(Step(s, a, known).log, s.primary, Step(s, a, known).primary);
    }
  }

  lemma StoreStep(s: System, known: bool)
    requires Enabled(s, StoreInRing)
    ensures Step(s, StoreInRing, known).log == s.log && Step(s, StoreInRing, known).primary == Stored(s.primary, s.stage.entry)
  {
  }

  lemma RestartStep(s: System, known: bool)
    ensures Step(s, RestartPrimary, known).log == s.log
    ensures Step(s, RestartPrimary, known).primary == Primary(seq(RING_BUFFER_SIZE, _ => None), 0, map[], 0)
  {
  }

  lemma WriteStep(s: System, a: Action, known: bool)
    requires Enabled(s, a) && a.Write?
    ensures Step(s, a, known).log == s.log + [WALEntry(|s.log| + 1, a.op, a.docID, a.body)]
  {
  }

  /** In every state of every run. */
  lemma {:induction false} RingHoldsTheLatest(states: seq<System>, actions: seq<Action>, known: bool, i: nat)
    requires IsRun(states, actions, known) && i < |states|
    ensures RingFits(states[i].log, states[i].primary)
  {
    hide RingFits, Inv, Enabled, Step;
    if i == 0 {
      EmptyFits(states[0].log);
    } else {
      var before := i - 1;
      RingHoldsTheLatest(states, actions, known, before);
      HeadTracksLog(states, actions, known, before);
      RunKeeps(states, actions, known, before);
      assert states[before + 1] == Step(states[before], actions[before], known);
      FitsStep(states[before], actions[before], known);
    }
  }

  /** With one entry of a ring all later ones are there, up to its newest. */
  lemma {:induction false} LaterHeld(log: seq<WALEntry>, p: Primary, n: nat, k: nat)
    requires RingFits(log, p) && Held(log, p, n) && n <= k < p.head
    ensures Held(log, p, k)
    decreases k - n
  {
    hide Held;
    if n < k { LaterHeld(log, p, n, k - 1); }
  }

  /** When no append intervenes, a ring that holds the entry after from gives all the rest; one that has nothing newer, nothing. */
  lemma QuietRing(log: seq<WALEntry>, p: Primary, views: seq<Primary>, from: nat)
    requires IsLog(log) && RingFits(log, p) && |views| >= p.head && (forall n :: 0 <= n < |views| ==> views[n] == p)
    requires p.head <= from + 1 || Held(log, p, from + 1)
    ensures RingGives(log, views, p.head, from, if p.head <= from + 1 then from else p.head - 1) && Recent(log, views, p.head)
  {
    hide Held;
    forall n | from < n < p.head ensures Held(log, p, n) { LaterHeld(log, p, from + 1, n); }
    forall n: nat | Held(log, p, n) && n < p.head ensures p.head <= n + 10000 { HeldRecent(log, p, n); }
  }

  /** Views taken after the head was read, of rings as runs have them, hold recent entries only. */
  lemma LaterViewsAreRecent(log: seq<WALEntry>, views: seq<Primary>, head: nat)
    requires IsLog(log) && forall v :: 0 <= v < |views| ==> RingFits(log, views[v]) && head <= views[v].head
    ensures Recent(log, views, head)
  {
    hide Held;
    forall n: nat | n < head && HeldAt(log, views, n) ensures head <= n + 10000 { HeldRecent(log, views[n], n); }
  }

  lemma HeldRecent(log: seq<WALEntry>, p: Primary, n: nat)
    requires IsLog(log) && RingFits(log, p) && Held(log, p, n)
    ensures n < p.head <= n + 10000
  {
    HeldNumber(log, p, n);
  }

  // ----- a stream that finds all it needs goes live

  /** In the ring pass, the stream looks at the number after the last one it sent. */
  ghost predicate InRingPass(s: System, from: nat, head: nat, lastAtStart: nat) {
    && s.conn.Some? && s.conn.value.phase.Ring?
    && var c := s.conn.value;
       c.phase.head == head && c.phase.next == c.lastSent + 1 && from <= c.lastSent && (c.lastSent == from || c.lastSent < head)
       && c.lastAtStart == lastAtStart
  }

  lemma PassStarts(s: System, known: bool)
    requires Inv(s, known) && Enabled(s, ScanEnd) && Fits(s)
    requires s.conn.value.lastSent + 1 < s.primary.head ==> Held(s.log, s.primary, s.conn.value.lastSent + 1)
    ensures InRingPass(Step(s, ScanEnd, known), s.conn.value.lastSent, s.primary.head, s.conn.value.lastAtStart)
  {
    hide RingFits, Held, ConnOk, ChannelOk, ReplicaOk, AttemptsOk, AllInTheLog, InTheLog;
    var from := s.conn.value.lastSent;
    if from + 1 < s.primary.head { HeldRecent(s.log, s.primary, from + 1); }
  }

  lemma PassStep(s: System, a: Action, known: bool, from: nat, head: nat, lastAtStart: nat)
    requires Inv(s, known) && Enabled(s, a) && InRingPass(s, from, head, lastAtStart)
    requires Step(s, a, known).conn.Some? && Step(s, a, known).conn.value.phase.Ring?
    requires s.conn.value.phase.next < head ==> Held(s.log, s.primary, s.conn.value.phase.next)
    ensures InRingPass(Step(s, a, known), from, head, lastAtStart)
  {
    hide ConnOk, ChannelOk, ReplicaOk, AttemptsOk, AllInTheLog, InTheLog, Receive, Offered, RingStart, Held, RingEntry;
    if a.RingStep? {
      HeldIsRead(s.log, s.primary, s.conn.value.phase.next);
    }
  }

  lemma HeldIsRead(log: seq<WALEntry>, p: Primary, n: nat)
    requires IsLog(log) && Held(log, p, n)
    ensures |p.ring| == RING_BUFFER_SIZE && RingEntry(p, n) == Some(log[n - 1]) && log[n - 1].seqNo == n
  {
  }

  lemma {:induction false} PassGoesOn(states: seq<System>, actions: seq<Action>, known: bool, i: nat, k: nat)
    requires IsRun(states, actions, known) && i < k <= |actions| && actions[i].ScanEnd? && states[i].conn.Some?
    requires forall j :: i < j <= k ==> states[j].conn.Some? && states[j].conn.value.phase.Ring?
    requires forall j, n {:trigger Held(states[j].log, states[j].primary, n)} :: i <= j < k && states[j].conn.value.lastSent < n < states[i].primary.head ==>
               Held(states[j].log, states[j].primary, n)
    ensures InRingPass(states[k], states[i].conn.value.lastSent, states[i].primary.head, states[i].conn.value.lastAtStart)
  {
    hide Inv, Enabled, Step, Held, RingFits;
    var before := k - 1;
    RunKeeps(states, actions, known, before);
    assert Enabled(states[before], actions[before]) && states[before + 1] == Step(states[before], actions[before], known);
    if before == i {
      RingHoldsTheLatest(states, actions, known, i);
      PassStarts(states[i], known);
    } else {
      PassGoesOn(states, actions, known, i, before);
      PassStep(states[before], actions[before], known, states[i].conn.value.lastSent, states[i].primary.head, states[i].conn.value.lastAtStart);
    }
  }

  /**
   A stream that finds in the ring, while it goes through it, every entry it has
   not sent yet, sends all of them and goes live, unless the log had ended later
   still when it started.
   */
  lemma CatchUpSucceeds(states: seq<System>, actions: seq<Action>, known: bool, i: nat, j: nat)
    requires IsRun(states, actions, known) && i < j < |actions| && actions[i].ScanEnd? && actions[j].RingEnd? && states[i].conn.Some?
    requires forall k :: i < k <= j ==> states[k].conn.Some? && states[k].conn.value.phase.Ring?
    requires forall k, n {:trigger Held(states[k].log, states[k].primary, n)} :: i <= k < j && states[k].conn.value.lastSent < n < states[i].primary.head ==>
               Held(states[k].log, states[k].primary, n)
    ensures var from, head, c := states[i].conn.value.lastSent, states[i].primary.head, states[j + 1].conn;
            && c.Some? && c.value.lastSent == (if head <= from + 1 then from else head - 1) <= |states[j].log|
            && c.value.fromSeq <= c.value.lastSent && c.value.sent == states[j].log[c.value.fromSeq..c.value.lastSent]
            && c.value.phase == if states[i].conn.value.lastAtStart <= c.value.lastSent then Live else Over(FailedPrecondition)
  {
    hide Inv, Held;
    PassGoesOn(states, actions, known, i, j);
    RunKeeps(states, actions, known, j);
    assert Enabled(states[j], actions[j]) && states[j + 1] == Step(states[j], actions[j], known);
    SentIsLog(states[j], known);
  }

  lemma SentIsLog(s: System, known: bool)
    requires Inv(s, known) && s.conn.Some?
    ensures var c := s.conn.value; c.fromSeq <= c.lastSent <= |s.log| && c.sent == s.log[c.fromSeq..c.lastSent]
  {
    hide PrimaryOk, ReplicaOk, AttemptsOk, ChannelOk;
  }

  /** An entry stays in the ring until the log is 10000 entries longer or the primary restarts. */
  lemma HeldStays(s: System, a: Action, known: bool, n: nat)
    requires Inv(s, known) && Enabled(s, a) && !a.RestartPrimary? && Held(s.log, s.primary, n) && |s.log| < n + 10000
    ensures Held(Step(s, a, known).log, Step(s, a, known).primary, n)
  {
    hide ConnOk, ChannelOk, ReplicaOk, AttemptsOk, Step, AllInTheLog;
    if a.StoreInRing? {
      StoreStep(s, known);
      if n < |s.log| { OtherSlot(n, |s.log|); }
    } else {
      RingStays(s, a, known);
      if a.Write? { WriteStep(s, a, known); }
    }
  }

  lemma {:induction false} HeldAlong(states: seq<System>, actions: seq<Action>, known: bool, i: nat, k: nat, n: nat)
    requires IsRun(states, actions, known) && i <= k < |states| && Held(states[i].log, states[i].primary, n)
    requires (forall j :: i <= j < k ==> !actions[j].RestartPrimary?) && |states[k].log| < n + 10000
    ensures Held(states[k].log, states[k].primary, n)
  {
    hide Inv, Enabled, Step, Held;
    if i < k {
      var before := k - 1;
      RunKeeps(states, actions, known, before);
      assert Enabled(states[before], actions[before]) && states[before + 1] == Step(states[before], actions[before], known);
      LogGrows(states[before], actions[before], known);
      HeldAlong(states, actions, known, i, before, n);
      HeldStays(states[before], actions[before], known, n);
    }
  }

  /**
   So a replica whose next entry is in the ring when the scan ends, and that lies
   less than 10000 entries behind the log when the ring pass ends, is brought to
   the live phase with everything the log had when the scan ended.
   */
  lemma RetainedGoesLive(states: seq<System>, actions: seq<Action>, known: bool, i: nat, j: nat)
    requires IsRun(states, actions, known) && i < j < |actions| && actions[i].ScanEnd? && actions[j].RingEnd? && states[i].conn.Some?
    requires forall k :: i < k <= j ==> states[k].conn.Some? && states[k].conn.value.phase.Ring?
    requires Held(states[i].log, states[i].primary, states[i].conn.value.lastSent + 1) && |states[j].log| <= states[i].conn.value.lastSent + 10000
    requires states[i].conn.value.lastAtStart < states[i].primary.head
    ensures var c := states[j + 1].conn; c.Some? && c.value.phase.Live? && c.value.lastSent == states[i].primary.head - 1
  {
    hide Held, RingFits, ConnOk, ChannelOk, ReplicaOk, AttemptsOk, AllInTheLog, InTheLog;
    RetainedPass(states, actions, known, i, j);
    RunKeeps(states, actions, known, i);
    RingHoldsTheLatest(states, actions, known, i);
    HeldRecent(states[i].log, states[i].primary, states[i].conn.value.lastSent + 1);
    assert Enabled(states[j], actions[j]) && states[j + 1] == Step(states[j], actions[j], known);
  }

  lemma {:induction false} RetainedPass(states: seq<System>, actions: seq<Action>, known: bool, i: nat, k: nat)
    requires IsRun(states, actions, known) && i < k <= |actions| && actions[i].ScanEnd? && states[i].conn.Some?
    requires forall j :: i < j <= k ==> states[j].conn.Some? && states[j].conn.value.phase.Ring?
    requires Held(states[i].log, states[i].primary, states[i].conn.value.lastSent + 1) && |states[k].log| <= states[i].conn.value.lastSent + 10000
    ensures InRingPass(states[k], states[i].conn.value.lastSent, states[i].primary.head, states[i].conn.value.lastAtStart)
  {
    hide Inv, Held, Step, Enabled, RingFits;
    var s, before := states[i], k - 1;
    var from, head := s.conn.value.lastSent, s.primary.head;
    RunKeeps(states, actions, known, before);
    assert Enabled(states[before], actions[before]) && states[before + 1] == Step(states[before], actions[before], known);
    RingHoldsTheLatest(states, actions, known, i);
    if before == i {
      PassStarts(s, known);
    } else {
      LogGrows(states[before], actions[before], known);
      RetainedPass(states, actions, known, i, before);
      var next := states[before].conn.value.phase.next;
      if next < head {
        forall j | i <= j < before ensures !actions[j].RestartPrimary? {
          assert Enabled(states[j], actions[j]) && states[j + 1] == Step(states[j], actions[j], known);
          if actions[j].RestartPrimary? { RestartDrops(states[j], known); }
        }
        LaterHeld(s.log, s.primary, from + 1, next);
        HeldAlong(states, actions, known, i, before, next);
      }
      PassStep(states[before], actions[before], known, from, head, s.conn.value.lastAtStart);
    }
  }

  lemma RestartDrops(s: System, known: bool)
    ensures Step(s, RestartPrimary, known).conn.None?
  {
  }
}
