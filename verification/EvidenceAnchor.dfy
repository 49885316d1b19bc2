/**
 When a ledger whose history was pruned can be reopened: what becomes of the
 retention anchor of its oldest archive over a whole run.
 */
module EvidenceAnchor {
  import opened Wrappers
  import opened EvidenceChain
  import opened EvidenceDisk

  // ---------------------------------------------------------------- the fate of the anchor

  /** Nothing pruned yet, the anchor `depth` entries from the end of the store, or gone with a store moved aside. */
  datatype Anchor = Unpruned | Kept(depth: nat) | Lost

  /** The fate of the newest anchor, from the operations alone. */
  function AnchorAfter(ops: seq<Op>): Anchor {
    if ops == [] then Unpruned
    else
      var before := AnchorAfter(ops[..|ops| - 1]);
      match ops[|ops| - 1]
      case RemoveOldest => Kept(1)
      case RotateStore(_) => if before.Unpruned? then Unpruned else Lost
      case QuarantineStore => if before.Unpruned? then Unpruned else Lost
      case AppendStore(_, _) => if before.Kept? then Kept(before.depth + 1) else before
      case _ => before
  }

  /** `c` anchors a retained chain that starts at `first`. */
  predicate AnchorsAt(c: Checkpoint, first: nat) {
    c.kind == RetentionMark && c.retainedFrom == first
  }

  /** The store holds the anchor of the oldest archive where `a` says, and no newer one. */
  ghost predicate Tracked(d: Disk, a: Anchor) {
    var first := First(d.archives);
    match a
    case Unpruned => first == 1
    case Kept(depth) =>
      && first != 1 && 1 <= depth <= |d.store| && AnchorsAt(d.store[|d.store| - depth], first)
      && forall i :: |d.store| - depth < i < |d.store| ==> !AnchorsAt(d.store[i], first)
    case Lost => first != 1 && forall i :: 0 <= i < |d.store| ==> !AnchorsAt(d.store[i], first)
  }

  /** The oldest archive starts before the one after it. */
  lemma SecondIsLater(h: Hmac, w: World)
    requires ChainInvariant(h, w) && |w.disk.archives| >= 2
    ensures w.disk.archives[0].first < w.disk.archives[1].first && w.disk.archives[1].first != 1
  {
    hide Tracks;
    var archives := w.disk.archives;
    assert archives[0] in archives;
    assert archives[1].first == archives[0].last + 1;
  }

  lemma StepTracked(h: Hmac, w: World, op: Op, a: Anchor, a': Anchor)
    requires ChainInvariant(h, w) && Enabled(h, w, op) && Tracked(w.disk, a)
    requires a' == match op
      case RemoveOldest => Kept(1)
      case RotateStore(_) => (if a.Unpruned? then Unpruned else Lost)
      case QuarantineStore => (if a.Unpruned? then Unpruned else Lost)
      case AppendStore(_, _) => (if a.Kept? then Kept(a.depth + 1) else a)
      case _ => a
    ensures Tracked(Step(w, op).disk, a')
  {
    hide ChainInvariant;
    if |w.disk.archives| >= 2 {
      SecondIsLater(h, w);
    }
  }

  lemma {:induction false} AnchorIsTracked(h: Hmac, ops: seq<Op>)
    requires Run(h, ops).Some?
    ensures Tracked(Run(h, ops).value.disk, AnchorAfter(ops))
  {
    hide Tracked;
    hide Enabled;
    hide Step;
    hide ChainInvariant;
    hide StoreInvariant;
    if ops == [] {
      EmptyTracked();
    } else {
      var before, op := ops[..|ops| - 1], ops[|ops| - 1];
      AnchorIsTracked(h, before);
      RunInvariant(h, before);
      StepTracked(h, Run(h, before).value, op, AnchorAfter(before), AnchorAfter(ops));
    }
  }

  lemma EmptyTracked()
    ensures Tracked(EMPTY_DISK, Unpruned)
  {
  }

  /** The anchor is still read when the ledger is opened. */
  predicate Readable(a: Anchor, store: seq<Checkpoint>) {
    match a
    case Unpruned => true
    case Kept(depth) => depth <= MAX_CHECKPOINTS_IN_MEMORY && StoreBytes(store) <= MAX_CHECKPOINT_FILE_BYTES
    case Lost => false
  }

  lemma AnchoredIffReadable(w: World, a: Anchor)
    requires StoreInvariant(w) && Tracked(w.disk, a)
    ensures Anchored(w.disk) <==> Readable(a, w.disk.store)
  {
    hide Truthful;
    hide NewestAnchor;
    hide StoreBytes;
    var store, first := w.disk.store, First(w.disk.archives);
    LoadedIsNewest(w);
    NewestAnchorFound(Loaded(store), first);
    if a.Kept? && StoreBytes(store) <= MAX_CHECKPOINT_FILE_BYTES {
      LoadedAnchor(store, Loaded(store), first, a.depth);
    }
  }

  lemma LoadedAnchor(store: seq<Checkpoint>, loaded: seq<Checkpoint>, first: nat, depth: nat)
    requires 1 <= depth <= |store| && AnchorsAt(store[|store| - depth], first)
    requires forall i :: |store| - depth < i < |store| ==> !AnchorsAt(store[i], first)
    requires loaded == Recent(store)
    ensures (exists c :: c in loaded && AnchorsAt(c, first)) <==> depth <= MAX_CHECKPOINTS_IN_MEMORY
  {
    var skip := |store| - |loaded|;
    assert forall i :: 0 <= i < |loaded| ==> loaded[i] == store[skip + i];
    if depth <= MAX_CHECKPOINTS_IN_MEMORY {
      assert loaded[|loaded| - depth] in loaded;
    }
  }

  /**
   In every run the files reopen if and only if nothing was pruned, or since the
   last prune the store was not moved aside, at most 8191 checkpoints followed the
   anchor, and the store is within its bound.
   */
  lemma ReopensIffAnchorKept(h: Hmac, ops: seq<Op>)
    requires Run(h, ops).Some?
    ensures Reopens(h, Run(h, ops).value.disk) <==> Readable(AnchorAfter(ops), Run(h, ops).value.disk.store)
  {
    hide Tracked;
    hide Reopens;
    hide Readable;
    hide ChainInvariant;
    hide StoreInvariant;
    AnchorIsTracked(h, ops);
    RunInvariant(h, ops);
    hide Run;
    AnchoredIffReadable(Run(h, ops).value, AnchorAfter(ops));
    ReopensIffAnchored(h, Run(h, ops).value);
  }

  // ---------------------------------------------------------------- consequences

  /** Bytes of durable checkpoint lines that were reported as failed since the store was loaded or moved aside. */
  function Unacknowledged(ops: seq<Op>): nat {
    if ops == [] then 0
    else
      var before := Unacknowledged(ops[..|ops| - 1]);
      match ops[|ops| - 1]
      case RotateStore(_) => 0
      case QuarantineStore => 0
      case LoadStore => 0
      case AppendStore(c, acknowledged) => if acknowledged then before else before + c.bytes
      case _ => before
  }

  /** The store exceeds what the ledger counted, and so at most its bound, by exactly the lines it does not know of. */
  lemma {:induction false} StoreIsCounted(h: Hmac, ops: seq<Op>)
    requires Run(h, ops).Some?
    ensures var w := Run(h, ops).value;
      StoreBytes(w.disk.store) == w.counted + Unacknowledged(ops) && w.counted <= MAX_CHECKPOINT_FILE_BYTES
  {
    if ops != [] {
      var w, op := Run(h, ops[..|ops| - 1]).value, ops[|ops| - 1];
      StoreIsCounted(h, ops[..|ops| - 1]);
      if op.AppendStore? {
        hide StoreBytes;
        StoreSnoc(w.disk.store, op.checkpoint);
      }
    }
  }

  /** A ledger that was never pruned reopens, whatever happened to its checkpoint store. */
  lemma NeverPrunedReopens(h: Hmac, ops: seq<Op>)
    requires Run(h, ops).Some? && RemoveOldest !in ops
    ensures Reopens(h, Run(h, ops).value.disk)
  {
    UnprunedAfter(ops);
    ReopensIffAnchorKept(h, ops);
  }

  lemma {:induction false} UnprunedAfter(ops: seq<Op>)
    requires RemoveOldest !in ops
    ensures AnchorAfter(ops).Unpruned?
  {
    if ops != [] {
      UnprunedAfter(ops[..|ops| - 1]);
    }
  }

  function Appends(ops: seq<Op>): nat {
    if ops == [] then 0
    else Appends(ops[..|ops| - 1]) + if ops[|ops| - 1].AppendStore? then 1 else 0
  }

  predicate MovesStore(op: Op) {
    op.RotateStore? || op.QuarantineStore?
  }

  lemma {:induction false} AnchorSinks(before: seq<Op>, after: seq<Op>)
    requires before != [] && before[|before| - 1] == RemoveOldest
    requires forall op :: op in after ==> !MovesStore(op)
    ensures AnchorAfter(before + after).Kept? && AnchorAfter(before + after).depth <= 1 + Appends(after)
    decreases |after|
  {
    if after == [] {
      assert before + after == before;
    } else {
      var n := |after| - 1;
      assert (before + after)[..|before| + n] == before + after[..n];
      AnchorSinks(before, after[..n]);
      assert (before + after)[|before| + n] == after[n] && after[n] in after;
    }
  }

  /** With no store moved aside, fewer than 8192 checkpoints since a prune and none unacknowledged, a ledger reopens. */
  lemma UnrotatedStaysAnchored(h: Hmac, before: seq<Op>, after: seq<Op>)
    requires Run(h, before + after).Some?
    requires before != [] && before[|before| - 1] == RemoveOldest
    requires (forall op :: op in after ==> !MovesStore(op)) && Appends(after) < MAX_CHECKPOINTS_IN_MEMORY
    requires Unacknowledged(before + after) == 0
    ensures Reopens(h, Run(h, before + after).value.disk)
  {
    hide Run;
    hide Reopens;
    AnchorSinks(before, after);
    StoreIsCounted(h, before + after);
    ReopensIffAnchorKept(h, before + after);
  }

  lemma {:induction false} LostUntilPruned(before: seq<Op>, after: seq<Op>)
    requires before != [] && MovesStore(before[|before| - 1]) && !AnchorAfter(before).Unpruned?
    requires RemoveOldest !in after
    ensures AnchorAfter(before + after).Lost?
    decreases |after|
  {
    if after == [] {
      assert before + after == before;
    } else {
      var n := |after| - 1;
      assert (before + after)[..|before| + n] == before + after[..n];
      LostUntilPruned(before, after[..n]);
    }
  }

  /** Once history was pruned, a store moved aside leaves a ledger that does not reopen until the next prune. */
  lemma RotatedStoreRejected(h: Hmac, before: seq<Op>, after: seq<Op>)
    requires Run(h, before).Some? && Run(h, before + after).Some?
    requires before != [] && MovesStore(before[|before| - 1]) && First(Run(h, before).value.disk.archives) != 1
    requires RemoveOldest !in after
    ensures !Reopens(h, Run(h, before + after).value.disk)
  {
    hide Run;
    hide Reopens;
    AnchorIsTracked(h, before);
    LostUntilPruned(before, after);
    ReopensIffAnchorKept(h, before + after);
  }
}
