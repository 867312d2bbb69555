/** Whole runs of a shard, merges and restarts included: when it holds the last-write-wins map (internal/shard). */
module ShardRuns {
  import opened Options
  import opened Bits
  import opened ShardModel
  import opened ShardSequence
  import opened ShardRecovery
  import opened ShardMerge

  // ----- what the shard stands for

  /** The logical map: the last write of every document wins, a delete removes it, a reset empties it. */
  function Logical(ops: seq<Op>): map<gostring, Content> {
    if ops == [] then map[] else
      var m := Logical(ops[..|ops| - 1]);
      match ops[|ops| - 1]
      case IndexOp(d, c) => m[d := c]
      case DeleteOp(d) => m - {d}
      case ResetOp => map[]
      case _ => m
  }

  function At(m: map<gostring, Content>, d: gostring): Option<Content> {
    if d in m then Some(m[d]) else None
  }

  ghost predicate Plain(op: Op) { !op.MergeOp? && !op.Restart? }

  /** A merge keeps every document; a restart replays no document that was indexed and then deleted. Other operations are always harmless. */
  ghost predicate Harmless(s: Shard, op: Op) {
    match op
    case MergeOp(chosen) => Inputs(s.manifest.segments, chosen) != [] && forall d :: DocSafe(s, chosen, d)
    case Restart => forall d :: !IndexedThenDeleted(s, d)
    case _ => true
  }

  ghost predicate HarmlessRun(ops: seq<Op>) {
    forall i :: 0 <= i < |ops| ==> Harmless(Exec(ops[..i]), ops[i])
  }

  lemma PlainIsHarmless(ops: seq<Op>)
    requires forall i :: 0 <= i < |ops| ==> Plain(ops[i])
    ensures HarmlessRun(ops)
  {
    hide Exec;
    forall i | 0 <= i < |ops| ensures Harmless(Exec(ops[..i]), ops[i]) {
      assert Plain(ops[i]);
    }
  }

  lemma RunPrefix(ops: seq<Op>)
    requires HarmlessRun(ops) && ops != []
    ensures HarmlessRun(ops[..|ops| - 1]) && Harmless(Exec(ops[..|ops| - 1]), ops[|ops| - 1])
  {
    hide Exec, Harmless;
    var init := ops[..|ops| - 1];
    forall i | 0 <= i < |init| ensures Harmless(Exec(init[..i]), init[i]) {
      assert init[..i] == ops[..i];
    }
  }

  // ----- every harmless step

  lemma StepInSync(s: Shard, op: Op)
    requires SeqInv(s) && InSync(s) && Harmless(s, op)
    ensures SeqInv(Do(s, op)) && InSync(Do(s, op))
  {
    hide SeqInv, InSync, DocSafe, IndexedThenDeleted, IndexDoc, DeleteDoc, Flush, Reset, Recover, Merge, Inputs;
    NeverRewinds(s, op);
    match op {
      case IndexOp(_, _) => WriteInSync(s, op);
      case DeleteOp(_) => WriteInSync(s, op);
      case FlushOp(lingers) => FlushInSync(s, lingers);
      case ResetOp => ResetInSync(s);
      case MergeOp(chosen) => MergeInSync(s, chosen);
      case Restart => RestartInSync(s);
    }
  }

  lemma {:induction false} ExecInSync(ops: seq<Op>)
    requires HarmlessRun(ops)
    ensures SeqInv(Exec(ops)) && InSync(Exec(ops))
  {
    hide Do, SeqInv, InSync, Harmless, HarmlessRun;
    if ops == [] {
      InitialOk();
      InitialInSync();
    } else {
      RunPrefix(ops);
      ExecInSync(ops[..|ops| - 1]);
      StepInSync(Exec(ops[..|ops| - 1]), ops[|ops| - 1]);
    }
  }

  lemma NothingHeld(d: gostring)
    ensures InSegments([], d) == None
  {
  }

  /** What one step does to how a document reads. */
  lemma StepReads(s: Shard, op: Op, d: gostring)
    requires SeqInv(s) && Harmless(s, op) && (op.Restart? ==> InSync(s))
    ensures Lookup(Do(s, op), d)
         == match op
            case IndexOp(x, c) => if d == x then Some(c) else Lookup(s, d)
            case DeleteOp(x) => if d == x then None else Lookup(s, d)
            case ResetOp => None
            case _ => Lookup(s, d)
  {
    hide SeqInv, InSync, DocSafe, InSegments, Flush, Recover, Merge, Inputs;
    match op {
      case FlushOp(lingers) => FlushPreserves(s, lingers, d);
      case ResetOp => NothingHeld(d);
      case MergeOp(chosen) => MergeKeepsDoc(s, chosen, d);
      case Restart => RecoveryPreserves(s, d);
      case _ =>
    }
  }

  /** Every operation does to the shard what it does to the logical map, at every document. */
  lemma {:induction false} ExecIsLogical(ops: seq<Op>, d: gostring)
    requires HarmlessRun(ops)
    ensures Lookup(Exec(ops), d) == At(Logical(ops), d)
  {
    hide SeqInv, InSync, Do, Lookup, Harmless, HarmlessRun;
    if ops == [] {
      EmptyReads(d);
    } else {
      var init, op := ops[..|ops| - 1], ops[|ops| - 1];
      RunPrefix(ops);
      ExecIsLogical(init, d);
      ExecInSync(init);
      StepReads(Exec(init), op, d);
    }
  }

  lemma EmptyReads(d: gostring)
    ensures Lookup(Initial(), d) == None
  {
    NothingHeld(d);
  }

  /**
   Crash recovery: after any run of writes, flushes and resets, of merges that
   are safe for every document, and of restarts that replay no document that was
   indexed and then deleted, one more crash and recovery leave the
   last-write-wins map.
   */
  lemma CrashRecovery(ops: seq<Op>, d: gostring)
    requires HarmlessRun(ops)
    ensures Lookup(Recover(Exec(ops)), d) == Lookup(Exec(ops), d) == At(Logical(ops), d)
  {
    hide Exec, Logical, Lookup, Recover, SeqInv, InSync, HarmlessRun;
    ExecInSync(ops);
    RecoveryPreserves(Exec(ops), d);
    ExecIsLogical(ops, d);
  }
}
