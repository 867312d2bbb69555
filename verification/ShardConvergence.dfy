/** Applying replicated entries more than once (internal/replication/replica.go, cmd/server/replication.go). */
module ShardConvergence {
  import opened Options
  import opened Bits
  import opened ShardModel
  import opened ShardSequence
  import opened ShardRecovery
  import opened ShardMerge
  import opened ShardRuns

  /** An entry a replica applies. */
  predicate Replicated(op: Op) { op.IndexOp? || op.DeleteOp? || op.ResetOp? }

  function ApplyOne(m: map<gostring, Content>, op: Op): map<gostring, Content> {
    match op
    case IndexOp(d, c) => m[d := c]
    case DeleteOp(d) => m - {d}
    case ResetOp => map[]
    case _ => m
  }

  /** The logical state after applying entries in order. */
  function Apply(m: map<gostring, Content>, ops: seq<Op>): map<gostring, Content> {
    if ops == [] then m else ApplyOne(Apply(m, ops[..|ops| - 1]), ops[|ops| - 1])
  }

  lemma {:induction false} ApplyJoin(m: map<gostring, Content>, a: seq<Op>, b: seq<Op>)
    ensures Apply(m, a + b) == Apply(Apply(m, a), b)
  {
    hide ApplyOne;
    if b == [] {
      assert a + b == a;
    } else {
      ApplyJoin(m, a, b[..|b| - 1]);
      assert (a + b)[..|a + b| - 1] == a + b[..|b| - 1];
    }
  }

  /** Some entry settles document d whatever came before. */
  ghost predicate Settles(ops: seq<Op>, d: gostring) {
    exists i :: 0 <= i < |ops| && ((ops[i].IndexOp? && ops[i].d == d) || (ops[i].DeleteOp? && ops[i].d == d) || ops[i].ResetOp?)
  }

  /** Only a document that nothing settles depends on the state before. */
  lemma {:induction false} SettledOrKept(m: map<gostring, Content>, m': map<gostring, Content>, ops: seq<Op>, d: gostring)
    ensures Settles(ops, d) ==> At(Apply(m, ops), d) == At(Apply(m', ops), d)
    ensures !Settles(ops, d) ==> At(Apply(m, ops), d) == At(m, d)
  {
    if ops != [] {
      var init, last := ops[..|ops| - 1], ops[|ops| - 1];
      SettledOrKept(m, m', init, d);
      if Settles(init, d) {
        var i :| 0 <= i < |init| && ((init[i].IndexOp? && init[i].d == d) || (init[i].DeleteOp? && init[i].d == d) || init[i].ResetOp?);
        assert ops[i] == init[i];
      }
      if i :| 0 <= i < |ops| && i != |ops| - 1 && ((ops[i].IndexOp? && ops[i].d == d) || (ops[i].DeleteOp? && ops[i].d == d) || ops[i].ResetOp?) {
        assert init[i] == ops[i];
      }
    }
  }

  lemma SettlesJoin(a: seq<Op>, b: seq<Op>, d: gostring)
    ensures Settles(a + b, d) <==> Settles(a, d) || Settles(b, d)
  {
    if i :| 0 <= i < |a| && ((a[i].IndexOp? && a[i].d == d) || (a[i].DeleteOp? && a[i].d == d) || a[i].ResetOp?) {
      assert (a + b)[i] == a[i];
    }
    if i :| 0 <= i < |b| && ((b[i].IndexOp? && b[i].d == d) || (b[i].DeleteOp? && b[i].d == d) || b[i].ResetOp?) {
      assert (a + b)[|a| + i] == b[i];
    }
  }

  lemma SameMap(a: map<gostring, Content>, b: map<gostring, Content>)
    requires forall d :: At(a, d) == At(b, d)
    ensures a == b
  {
    forall d ensures d in a <==> d in b { assert At(a, d) == At(b, d); }
    forall d | d in a ensures a[d] == b[d] { assert At(a, d) == At(b, d); }
  }

  // ----- any number of streams

  /** What one stream applied: the log's entries after a saved position, up to where it broke off. */
  datatype Session = Session(from: nat, upto: nat)

  /** The first stream starts at the log's beginning; each other one at a saved position, which never goes back and is behind what was applied. */
  ghost predicate Resumes(log: seq<Op>, ss: seq<Session>) {
    && ss != [] && ss[0].from == 0
    && (forall i :: 0 <= i < |ss| ==> ss[i].from <= ss[i].upto <= |log|)
    && (forall i :: 0 < i < |ss| ==> ss[i - 1].from <= ss[i].from <= ss[i - 1].upto)
  }

  function Applied(log: seq<Op>, ss: seq<Session>): seq<Op>
    requires forall i :: 0 <= i < |ss| ==> ss[i].from <= ss[i].upto <= |log|
  {
    if ss == [] then [] else
      var last := ss[|ss| - 1];
      Applied(log, ss[..|ss| - 1]) + log[last.from..last.upto]
  }

  function Furthest(ss: seq<Session>): (f: nat)
    ensures forall i :: 0 <= i < |ss| ==> ss[i].upto <= f
    ensures f == 0 || exists i :: 0 <= i < |ss| && ss[i].upto == f
  {
    if ss == [] then 0 else
      var f := Furthest(ss[..|ss| - 1]);
      if ss[|ss| - 1].upto > f then ss[|ss| - 1].upto else f
  }

  /** What a stretch does to a document that only its first part settles, if any. */
  lemma PartSettles(m: map<gostring, Content>, log: seq<Op>, a: nat, k: nat, b: nat, d: gostring)
    requires a <= k <= b <= |log| && !Settles(log[k..b], d)
    ensures At(Apply(m, log[a..b]), d) == At(Apply(m, log[a..k]), d)
  {
    hide Apply, Settles;
    assert log[a..b] == log[a..k] + log[k..b];
    ApplyJoin(m, log[a..k], log[k..b]);
    SettledOrKept(Apply(m, log[a..k]), m, log[k..b], d);
  }

  lemma LessSettles(log: seq<Op>, a: nat, k: nat, b: nat, d: gostring)
    requires a <= k <= b <= |log|
    ensures Settles(log[a..b], d) <==> Settles(log[a..k], d) || Settles(log[k..b], d)
  {
    assert log[a..b] == log[a..k] + log[k..b];
    SettlesJoin(log[a..k], log[k..b], d);
  }

  lemma FurthestWithin(log: seq<Op>, ss: seq<Session>)
    requires Resumes(log, ss)
    ensures Furthest(ss) <= |log|
  {
    hide Furthest;
  }

  lemma FurthestSnoc(log: seq<Op>, ss: seq<Session>)
    requires Resumes(log, ss) && |ss| > 1
    ensures Resumes(log, ss[..|ss| - 1]) && Furthest(ss[..|ss| - 1]) <= Furthest(ss)
    ensures ss[|ss| - 2].from <= ss[|ss| - 1].from <= ss[|ss| - 2].upto
  {
    hide Furthest;
    var init := ss[..|ss| - 1];
    forall i | 0 < i < |init| ensures init[i - 1].from <= init[i].from <= init[i - 1].upto {
      assert init[i - 1] == ss[i - 1] && init[i] == ss[i];
    }
    var f := Furthest(init);
    if f > 0 {
      var i :| 0 <= i < |init| && init[i].upto == f;
      assert ss[i].upto == f;
    }
  }

  /** A document that nothing from entry k on settles is, after all streams, as the first k entries leave it. */
  lemma {:induction false} StreamsAgree(m: map<gostring, Content>, log: seq<Op>, ss: seq<Session>, k: nat, d: gostring)
    requires Resumes(log, ss) && ss[|ss| - 1].from <= k <= ss[|ss| - 1].upto <= Furthest(ss) <= |log| && !Settles(log[k..Furthest(ss)], d)
    ensures At(Apply(m, Applied(log, ss)), d) == At(Apply(m, log[..k]), d)
  {
    hide Apply, Settles, Furthest, At;
    var init, last, f := ss[..|ss| - 1], ss[|ss| - 1], Furthest(ss);
    LessSettles(log, k, last.upto, f, d);
    if |ss| == 1 {
      assert Applied(log, ss) == log[0..last.upto] && log[..k] == log[0..k];
      PartSettles(m, log, 0, k, last.upto, d);
    } else {
      FurthestSnoc(log, ss);
      var before := Applied(log, init);
      ApplyJoin(m, before, log[last.from..last.upto]);
      PartSettles(Apply(m, before), log, last.from, k, last.upto, d);
      assert log[..k] == log[..last.from] + log[last.from..k];
      ApplyJoin(m, log[..last.from], log[last.from..k]);
      SettledOrKept(Apply(m, before), Apply(m, log[..last.from]), log[last.from..k], d);
      if !Settles(log[last.from..k], d) {
        LessSettles(log, last.from, k, f, d);
        LessSettles(log, last.from, Furthest(init), f, d);
        StreamsAgree(m, log, init, last.from, d);
        SettledOrKept(Apply(m, log[..last.from]), m, log[last.from..k], d);
      }
    }
  }

  /**
   At-least-once delivery converges: however many streams broke off and resumed
   from saved positions, once the last one has come as far as any did, the
   state is that of the log up to there.
   */
  lemma ResumeConverges(m: map<gostring, Content>, log: seq<Op>, ss: seq<Session>)
    requires Resumes(log, ss) && ss[|ss| - 1].upto == Furthest(ss)
    ensures Furthest(ss) <= |log| && Apply(m, Applied(log, ss)) == Apply(m, log[..Furthest(ss)])
  {
    hide Apply, Applied, Furthest, At;
    var n := Furthest(ss);
    FurthestWithin(log, ss);
    forall d ensures At(Apply(m, Applied(log, ss)), d) == At(Apply(m, log[..n]), d) {
      assert log[n..n] == [];
      StreamsAgree(m, log, ss, n, d);
    }
    SameMap(Apply(m, Applied(log, ss)), Apply(m, log[..n]));
  }

  /** The logical state of a shard that applied the entries itself. */
  lemma {:induction false} LogicalIsApply(ops: seq<Op>)
    ensures Logical(ops) == Apply(map[], ops)
  {
    if ops != [] { LogicalIsApply(ops[..|ops| - 1]); }
  }

  // ----- a replica that flushes on its own and crashes in between

  /** Operations on a shard that is already running. */
  function ExecFrom(s: Shard, ops: seq<Op>): Shard {
    if ops == [] then s else Do(ExecFrom(s, ops[..|ops| - 1]), ops[|ops| - 1])
  }

  /** The entries among a replica's operations; flushes, merges and restarts are its own affair. */
  function Entries(ops: seq<Op>): seq<Op> {
    if ops == [] then [] else
      Entries(ops[..|ops| - 1]) + if Replicated(ops[|ops| - 1]) then [ops[|ops| - 1]] else []
  }

  /** Each operation is harmless where it happens, and none is a restart. */
  ghost predicate HarmlessFrom(s: Shard, ops: seq<Op>) {
    forall i :: 0 <= i < |ops| ==> !ops[i].Restart? && Harmless(ExecFrom(s, ops[..i]), ops[i])
  }

  lemma FromPrefix(s: Shard, ops: seq<Op>)
    requires HarmlessFrom(s, ops) && ops != []
    ensures var init, last := ops[..|ops| - 1], ops[|ops| - 1];
            HarmlessFrom(s, init) && !last.Restart? && Harmless(ExecFrom(s, init), last)
  {
    hide ExecFrom, Harmless;
    var init := ops[..|ops| - 1];
    forall i | 0 <= i < |init| ensures !init[i].Restart? && Harmless(ExecFrom(s, init[..i]), init[i]) {
      assert init[..i] == ops[..i];
    }
  }

  lemma HarmlessAllowed(s: Shard, op: Op)
    requires Harmless(s, op)
    ensures Allowed(s, op)
  {
    hide Inputs, DocSafe;
  }

  /** Operations on any shard whose numbers are in order do to it what they do to the logical map. */
  lemma {:induction false} ExecFromReads(s: Shard, m: map<gostring, Content>, ops: seq<Op>, d: gostring)
    requires SeqInv(s) && HarmlessFrom(s, ops) && Lookup(s, d) == At(m, d)
    ensures SeqInv(ExecFrom(s, ops)) && Lookup(ExecFrom(s, ops), d) == At(Apply(m, ops), d)
  {
    hide SeqInv, Lookup, Do, Harmless, HarmlessFrom, Allowed;
    if ops != [] {
      var init, op := ops[..|ops| - 1], ops[|ops| - 1];
      FromPrefix(s, ops);
      ExecFromReads(s, m, init, d);
      StepReads(ExecFrom(s, init), op, d);
      HarmlessAllowed(ExecFrom(s, init), op);
      NeverRewinds(ExecFrom(s, init), op);
    }
  }

  lemma {:induction false} ApplyEntries(m: map<gostring, Content>, ops: seq<Op>)
    ensures Apply(m, ops) == Apply(m, Entries(ops))
  {
    if ops != [] {
      var init, op := ops[..|ops| - 1], ops[|ops| - 1];
      ApplyEntries(m, init);
      ApplyJoin(m, Entries(init), if Replicated(op) then [op] else []);
      assert [op][..0] == [];
    }
  }

  lemma LogIsHarmless(log: seq<Op>, n: nat)
    requires n <= |log| && forall i :: 0 <= i < |log| ==> Replicated(log[i])
    ensures HarmlessRun(log[..n])
  {
    hide HarmlessRun;
    forall i | 0 <= i < n ensures Plain(log[..n][i]) {
      assert Replicated(log[i]);
    }
    PlainIsHarmless(log[..n]);
  }

  /**
   A replica applied the log in any number of streams, each resumed from a saved
   position. Meanwhile it flushed, merged, crashed and recovered when it liked,
   each time harmlessly; the last crash may have been any. Once the last stream
   has come as far as any did, the replica reads as the primary's shard that
   executed the log up to there, at every document.
   */
  lemma ReplicaReadsAsPrimary(log: seq<Op>, ss: seq<Session>, before: seq<Op>, after: seq<Op>, d: gostring)
    requires Resumes(log, ss) && ss[|ss| - 1].upto == Furthest(ss) && forall i :: 0 <= i < |log| ==> Replicated(log[i])
    requires HarmlessRun(before) && HarmlessFrom(Recover(Exec(before)), after)
    requires Entries(before) + Entries(after) == Applied(log, ss)
    ensures Furthest(ss) <= |log| && Lookup(ExecFrom(Recover(Exec(before)), after), d) == Lookup(Exec(log[..Furthest(ss)]), d)
  {
    hide Exec, ExecFrom, Lookup, Logical, Apply, Applied, Entries, Recover, SeqInv, InSync, Furthest, HarmlessRun, HarmlessFrom, At;
    CrashRecovery(before, d);
    ExecInSync(before);
    RestartKeeps(Exec(before));
    ExecFromReads(Recover(Exec(before)), Logical(before), after, d);
    LogicalIsApply(before);
    ApplyEntries(map[], before);
    ApplyEntries(Apply(map[], before), after);
    ApplyJoin(map[], Entries(before), Entries(after));
    ResumeConverges(map[], log, ss);
    LogIsHarmless(log, Furthest(ss));
    ExecIsLogical(log[..Furthest(ss)], d);
    LogicalIsApply(log[..Furthest(ss)]);
  }
}
