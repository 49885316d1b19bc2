/**
 Concrete runs of the ledger, built operation by operation: what the code does
 when every write succeeds but for the ones a lemma names.
 */
module EvidenceRuns {
  import opened Wrappers
  import opened EvidenceChain
  import opened EvidenceDisk
  import opened EvidenceAnchor

  // ---------------------------------------------------------------- records without checkpoints

  ghost predicate Written(w: World, w': World, n: nat) {
    && |w'.history| == |w.history| + n && |w'.disk.live| == |w.disk.live| + n
    && w'.disk.archives == w.disk.archives && w'.disk.store == w.disk.store && w'.counted == w.counted
  }

  lemma WriteOne(h: Hmac, ops: seq<Op>) returns (more: seq<Op>)
    requires Run(h, ops).Some?
    ensures Run(h, more).Some? && Written(Run(h, ops).value, Run(h, more).value, 1)
    ensures forall op :: op in more ==> op in ops || op.WriteRecord?
  {
    var write := WriteRecord(NextRecord(h, Run(h, ops).value, 0));
    RunSnoc(h, ops, write);
    more := ops + [write];
  }

  /** `n` more records, none of them followed by a checkpoint. */
  lemma {:induction false} WriteMany(h: Hmac, ops: seq<Op>, n: nat) returns (more: seq<Op>)
    requires Run(h, ops).Some?
    ensures Run(h, more).Some? && Written(Run(h, ops).value, Run(h, more).value, n)
    ensures forall op :: op in more ==> op in ops || op.WriteRecord?
  {
    hide Run;
    more := ops;
    if n > 0 {
      more := WriteMany(h, ops, n - 1);
      more := WriteOne(h, more);
    }
  }

  // ---------------------------------------------------------------- records with checkpoints

  /** A usual length of a checkpoint line. */
  const LINE := 400

  function Mark(w: World, kind: Kind): Checkpoint {
    Checkpoint(kind, |w.history|, w.Tip().mac, 0, NoMac, true, LINE)
  }

  ghost predicate Grown(w: World, w': World, n: nat) {
    && |w'.history| == |w.history| + n && |w'.disk.live| == |w.disk.live| + n
    && w'.disk.archives == w.disk.archives && w'.counted == w.counted + LINE * n
  }

  lemma MarkTip(h: Hmac, ops: seq<Op>, kind: Kind) returns (more: seq<Op>)
    requires Run(h, ops).Some? && kind != RetentionMark
    requires |Run(h, ops).value.history| > 0 && Run(h, ops).value.counted + LINE <= MAX_CHECKPOINT_FILE_BYTES
    ensures Run(h, more).Some?
    ensures var w, w' := Run(h, ops).value, Run(h, more).value;
      && w'.history == w.history && w'.disk == w.disk.(store := w'.disk.store) && w'.counted == w.counted + LINE
      && StoreBytes(w'.disk.store) == StoreBytes(w.disk.store) + LINE
    ensures more != [] && more[|more| - 1].AppendStore?
  {
    var mark := AppendStore(Mark(Run(h, ops).value, kind), true);
    RunSnoc(h, ops, mark);
    StoreSnoc(Run(h, ops).value.disk.store, mark.checkpoint);
    more := ops + [mark];
  }

  /** `n` times a record and a reopen, which leaves a tip checkpoint. */
  lemma {:induction false} Grow(h: Hmac, ops: seq<Op>, n: nat) returns (more: seq<Op>)
    requires Run(h, ops).Some? && Run(h, ops).value.counted + LINE * n <= MAX_CHECKPOINT_FILE_BYTES
    ensures Run(h, more).Some? && Grown(Run(h, ops).value, Run(h, more).value, n)
  {
    hide Run;
    more := ops;
    if n > 0 {
      more := Grow(h, ops, n - 1);
      more := WriteOne(h, more);
      more := MarkTip(h, more, TipMark);
    }
  }

  // ---------------------------------------------------------------- a ledger that no longer opens

  /** Archives the live file and marks the archive. */
  lemma ArchiveOne(h: Hmac, ops: seq<Op>) returns (more: seq<Op>)
    requires Run(h, ops).Some?
    requires var w := Run(h, ops).value;
      w.disk.live != [] && |w.history| > 0 && w.counted + LINE <= MAX_CHECKPOINT_FILE_BYTES
    ensures Run(h, more).Some?
    ensures var w, w' := Run(h, ops).value, Run(h, more).value;
      && |w'.disk.archives| == |w.disk.archives| + 1 && First(w'.disk.archives) == First(w.disk.archives)
      && w'.disk.live == [] && w'.history == w.history && w'.counted == w.counted + LINE
  {
    RunSnoc(h, ops, ArchiveLive);
    more := ops + [ArchiveLive];
    hide Run;
    more := MarkTip(h, more, ArchiveMark);
  }

  const PER_ARCHIVE := 2000

  ghost predicate Filled(w: World, n: nat) {
    && |w.disk.archives| == n && First(w.disk.archives) == 1 && w.disk.live == []
    && |w.history| == PER_ARCHIVE * n && w.counted == (PER_ARCHIVE + 1) * LINE * n
  }

  lemma FillOne(h: Hmac, ops: seq<Op>, n: nat) returns (more: seq<Op>)
    requires n < 5 && Run(h, ops).Some? && Filled(Run(h, ops).value, n)
    ensures Run(h, more).Some? && Filled(Run(h, more).value, n + 1)
  {
    hide Run;
    more := Grow(h, ops, PER_ARCHIVE);
    more := ArchiveOne(h, more);
  }

  /** `n` archives of 2000 records, each record with its tip checkpoint and each archive with its mark. */
  lemma {:induction false} FillArchives(h: Hmac, n: nat) returns (ops: seq<Op>)
    requires n <= 5
    ensures Run(h, ops).Some? && Filled(Run(h, ops).value, n)
  {
    if n == 0 {
      ops := [];
    } else {
      hide Run;
      hide Filled;
      ops := FillArchives(h, n - 1);
      ops := FillOne(h, ops, n - 1);
    }
  }

  /** Anchors the second archive and removes the first. */
  lemma PruneFirst(h: Hmac, ops: seq<Op>) returns (more: seq<Op>)
    requires Run(h, ops).Some?
    requires var w := Run(h, ops).value;
      |w.disk.archives| == 5 && |w.history| > 0 && w.counted + LINE <= MAX_CHECKPOINT_FILE_BYTES
    ensures Run(h, more).Some? && |more| > 0 && more[|more| - 1] == RemoveOldest
    ensures var w, w' := Run(h, ops).value, Run(h, more).value;
      First(w'.disk.archives) != 1 && w'.history == w.history && w'.counted == w.counted + LINE
  {
    hide ChainInvariant;
    hide StoreInvariant;
    var w := Run(h, ops).value;
    RunInvariant(h, ops);
    SecondIsLater(h, w);
    SecondHasRecords(h, w);
    var second := w.disk.archives[1];
    var anchor := Checkpoint(
      RetentionMark, |w.history|, w.Tip().mac, second.first, second.records[0].previous, true, LINE);
    RunSnoc(h, ops, AppendStore(anchor, true));
    RunSnoc(h, ops + [AppendStore(anchor, true)], RemoveOldest);
    more := ops + [AppendStore(anchor, true)] + [RemoveOldest];
  }

  lemma SecondHasRecords(h: Hmac, w: World)
    requires ChainInvariant(h, w) && |w.disk.archives| >= 2
    ensures w.disk.archives[1].records != []
  {
    hide Tracks;
    ArchiveNonempty(w.disk.archives, First(w.disk.archives), 1);
  }

  /**
   A run of operations the code performs, every write succeeding, that ends in a
   ledger it can no longer open: 10479 records with their tip checkpoints, five
   archives with their marks, one anchor and prune, and then one more record, whose
   checkpoint line of 400 bytes does not fit beside the 10485 lines already in the store.
   */
  lemma ReachableRejectedLedger(h: Hmac) returns (ops: seq<Op>)
    ensures Run(h, ops).Some?
    ensures !Reopens(h, Run(h, ops).value.disk)
  {
    hide Run;
    hide Reopens;
    ops := FillArchives(h, 5);
    ops := PruneFirst(h, ops);
    ops := Grow(h, ops, 479);
    ops := WriteOne(h, ops);
    RotateFull(h, ops);
    ops := ops + [RotateStore(LINE)];
    assert ops + [] == ops;
    RotatedStoreRejected(h, ops, []);
  }

  lemma RotateFull(h: Hmac, ops: seq<Op>)
    requires Run(h, ops).Some? && Run(h, ops).value.counted + LINE > MAX_CHECKPOINT_FILE_BYTES
    ensures Run(h, ops + [RotateStore(LINE)]).Some?
    ensures Run(h, ops + [RotateStore(LINE)]).value.disk.archives == Run(h, ops).value.disk.archives
  {
    RunSnoc(h, ops, RotateStore(LINE));
  }
}
