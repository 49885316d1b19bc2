/**
 Removing the newest records: how far the signed checkpoints lag the tip, and
 exactly which truncations of a ledger are accepted.
 */
module EvidenceTail {
  import opened Wrappers
  import opened EvidenceChain
  import opened EvidenceDisk
  import opened EvidenceAnchor
  import opened EvidenceRuns

  // ---------------------------------------------------------------- how far the checkpoints lag

  const CHECKPOINT_INTERVAL := 256

  function NewestSequence(store: seq<Checkpoint>): nat {
    if store == [] then 0 else store[|store| - 1].sequence
  }

  /** The newest checkpoint is no older than the last multiple of the checkpoint interval. */
  predicate Covered(w: World) {
    |w.history| <= NewestSequence(w.disk.store) + |w.history| % CHECKPOINT_INTERVAL
  }

  /** A record at a multiple of the interval, or a store moved aside, is not followed by a durable checkpoint yet. */
  function Owed(ops: seq<Op>): bool {
    if ops == [] then false
    else
      var before := Owed(ops[..|ops| - 1]);
      match ops[|ops| - 1]
      case WriteRecord(r) => before || r.sequence % CHECKPOINT_INTERVAL == 0
      case RotateStore(_) => true
      case QuarantineStore => true
      case AppendStore(_, _) => false
      case _ => before
  }

  lemma StepKeepsCovered(h: Hmac, w: World, op: Op)
    requires Enabled(h, w, op) && !MovesStore(op)
    requires Covered(w) || op.AppendStore?
    requires op.WriteRecord? ==> op.record.sequence % CHECKPOINT_INTERVAL != 0
    ensures Covered(Step(w, op))
  {
  }

  lemma StepKeepsUncovered(h: Hmac, w: World, op: Op)
    requires StoreInvariant(w) && Enabled(h, w, op) && !op.AppendStore?
    requires !Covered(w) || (op.WriteRecord? && op.record.sequence % CHECKPOINT_INTERVAL == 0) || MovesStore(op)
    ensures !Covered(Step(w, op)) || |Step(w, op).history| < CHECKPOINT_INTERVAL
  {
    hide Truthful;
    NewestIsPast(w);
  }

  lemma NewestIsPast(w: World)
    requires StoreInvariant(w)
    ensures NewestSequence(w.disk.store) <= |w.history|
  {
    if w.disk.store != [] {
      assert Truthful(w.disk.store[|w.disk.store| - 1], w.history);
    }
  }

  /** In every run the checkpoints cover the tip if and only if none is owed, or there are fewer than 256 records. */
  lemma {:induction false} CoveredIffPaid(h: Hmac, ops: seq<Op>)
    requires Run(h, ops).Some?
    ensures Covered(Run(h, ops).value) <==> !Owed(ops) || |Run(h, ops).value.history| < CHECKPOINT_INTERVAL
  {
    hide ChainInvariant;
    hide StoreInvariant;
    if ops != [] {
      var before, op := ops[..|ops| - 1], ops[|ops| - 1];
      CoveredIffPaid(h, before);
      RunInvariant(h, before);
      CoveredStep(h, Run(h, before).value, op, Owed(before), Owed(ops));
    }
  }

  lemma CoveredStep(h: Hmac, w: World, op: Op, owed: bool, owed': bool)
    requires StoreInvariant(w) && Enabled(h, w, op)
    requires Covered(w) <==> !owed || |w.history| < CHECKPOINT_INTERVAL
    requires owed' == (!op.AppendStore?
      && (owed || MovesStore(op) || (op.WriteRecord? && op.record.sequence % CHECKPOINT_INTERVAL == 0)))
    ensures Covered(Step(w, op)) <==> !owed' || |Step(w, op).history| < CHECKPOINT_INTERVAL
  {
    hide StoreInvariant;
    if !owed' {
      StepKeepsCovered(h, w, op);
    } else if !Covered(w) || MovesStore(op) || (op.WriteRecord? && op.record.sequence % CHECKPOINT_INTERVAL == 0) {
      StepKeepsUncovered(h, w, op);
    }
  }

  lemma TipInStoreCovers(w: World, c: Checkpoint)
    requires StoreInvariant(w) && c in w.disk.store && c.sequence == |w.history|
    ensures Covered(w)
  {
  }

  // ---------------------------------------------------------------- which truncations are accepted

  /** The newest sequence that a loaded checkpoint vouches for. */
  function Vouched(d: Disk): nat {
    NewestSequence(Loaded(d.store))
  }

  /** The same checkpoint store beside only the records up to sequence `n`, in one file. */
  function Truncated(d: Disk, n: nat): Disk
    requires First(d.archives) <= n + 1 <= First(d.archives) + |Records(d)|
  {
    var first := First(d.archives);
    var kept := Records(d)[..n + 1 - first];
    if first == 1 then d.(archives := [], livePresent := true, live := kept)
    else d.(archives := [Archive(first, n, kept)], livePresent := false, live := [])
  }

  /** A length to which a ledger can be cut: some record of the oldest archive is left once history was pruned. */
  predicate Cuts(w: World, n: nat) {
    First(w.disk.archives) <= n + 1 && n <= |w.history| && (First(w.disk.archives) == 1 || First(w.disk.archives) <= n)
  }

  lemma TracksCut(h: Hmac, records: seq<Record>, first: nat, history: seq<Mac>, n: nat)
    requires Tracks(h, records, first, history) && first <= n + 1 && n <= |history| && (first == 1 || first <= n)
    ensures Tracks(h, records[..n + 1 - first], first, history[..n])
  {
    hide Linked;
    LinkedCut(h, records, first, MacBefore(history, first), n + 1 - first);
  }

  lemma LiveChain(h: Hmac, w: World)
    requires w.disk.archives == [] && w.disk.livePresent && Tracks(h, w.disk.live, 1, w.history)
    ensures ChainInvariant(h, w)
  {
    hide Tracks;
    EmptyShape();
    assert Records(w.disk) == w.disk.live;
  }

  lemma ArchivedChain(h: Hmac, w: World, a: Archive)
    requires w.disk.archives == [a] && w.disk.live == [] && Tracks(h, a.records, a.first, w.history)
    requires 1 <= a.first <= a.last && a.last + 1 == a.first + |a.records|
    ensures ChainInvariant(h, w)
  {
    hide Tracks;
    OneArchive(a);
    assert Records(w.disk) == a.records;
  }

  lemma TruncatedChain(h: Hmac, w: World, n: nat)
    requires ChainInvariant(h, w) && Cuts(w, n)
    ensures |Records(w.disk)| == |w.history| + 1 - First(w.disk.archives)
    ensures ChainInvariant(h, World(Truncated(w.disk, n), w.history[..n], w.counted))
    ensures First(Truncated(w.disk, n).archives) == First(w.disk.archives)
  {
    hide Records;
    var first, records := First(w.disk.archives), Records(w.disk);
    TracksTip(h, records, first, w.history);
    TracksCut(h, records, first, w.history, n);
    hide ChainInvariant;
    hide Tracks;
    var cut := World(Truncated(w.disk, n), w.history[..n], w.counted);
    if first == 1 {
      LiveChain(h, cut);
    } else {
      ArchivedChain(h, cut, cut.disk.archives[0]);
    }
  }

  lemma LinkedCut(h: Hmac, records: seq<Record>, first: nat, previous: Mac, n: nat)
    requires Linked(h, records, first, previous) && n <= |records|
    ensures Linked(h, records[..n], first, previous)
  {
  }

  lemma EmptyShape()
    ensures Contiguous([], 1) && Flatten([]) == []
  {
  }

  lemma OneArchive(a: Archive)
    requires a.last + 1 == a.first + |a.records|
    ensures Contiguous([a], a.first) && Flatten([a]) == a.records
  {
    assert [a][..0] == [];
  }

  lemma LoadedVouches(w: World, c: Checkpoint)
    requires StoreInvariant(w) && c in Loaded(w.disk.store)
    ensures c.sequence <= Vouched(w.disk)
    ensures Loaded(w.disk.store)[|Loaded(w.disk.store)| - 1] in Loaded(w.disk.store)
  {
    hide Truthful;
    hide StoreBytes;
    LoadedIsNewest(w);
  }

  lemma CutStaysTruthful(c: Checkpoint, history: seq<Mac>, n: nat)
    requires Truthful(c, history) && c.sequence <= n <= |history|
    ensures Truthful(c, history[..n])
  {
  }

  /**
   A ledger that reopens still does with its newest records removed exactly as far down as a loaded
   checkpoint vouches.
   */
  lemma TruncationAcceptedIff(h: Hmac, w: World, n: nat)
    requires Invariant(h, w) && Reopens(h, w.disk) && Cuts(w, n)
    ensures First(w.disk.archives) <= n + 1 <= First(w.disk.archives) + |Records(w.disk)|
    ensures Reopens(h, Truncated(w.disk, n)) <==> Vouched(w.disk) <= n
  {
    hide ChainInvariant;
    hide StoreInvariant;
    hide Accepted;
    hide Loaded;
    hide Truthful;
    hide NewestAnchor;
    TruncatedChain(h, w, n);
    LoadedIsNewest(w);
    var cut, checkpoints := World(Truncated(w.disk, n), w.history[..n], w.counted), Loaded(w.disk.store);
    TruthfulAccepted(h, w, checkpoints);
    if Vouched(w.disk) <= n {
      forall c | c in checkpoints ensures Truthful(c, cut.history) {
        LoadedVouches(w, c);
        CutStaysTruthful(c, w.history, n);
      }
      TruthfulAccepted(h, cut, checkpoints);
    } else if Reopens(h, cut.disk) {
      LoadedVouches(w, checkpoints[|checkpoints| - 1]);
      AcceptedReaches(h, cut, checkpoints, checkpoints[|checkpoints| - 1]);
    }
  }

  lemma NewestWithin(h: Hmac, archives: seq<Archive>, live: seq<Record>, checkpoints: seq<Checkpoint>, c: Checkpoint)
    requires Accepted(h, archives, live, checkpoints) && c in checkpoints
    ensures c.sequence <= TipOf(archives, live, checkpoints).sequence
  {
    hide Linked;
    hide Contiguous;
  }

  lemma AcceptedReaches(h: Hmac, w: World, checkpoints: seq<Checkpoint>, c: Checkpoint)
    requires ChainInvariant(h, w) && Accepted(h, w.disk.archives, w.disk.live, checkpoints) && c in checkpoints
    ensures c.sequence <= |w.history|
  {
    hide Linked;
    hide Contiguous;
    hide NewestAnchor;
    hide Flatten;
    TracksTip(h, Records(w.disk), First(w.disk.archives), w.history);
  }

  /**
   Whatever files are put beside the checkpoint store of a run instead of the chain, an
   accepted chain reaches the newest loaded checkpoint. So if none is owed and the store
   is within its bound, a chain shorter by 256 or more records is rejected.
   */
  lemma TailTruncationRejected(h: Hmac, ops: seq<Op>, archives: seq<Archive>, live: seq<Record>)
    requires Run(h, ops).Some? && Accepted(h, archives, live, Loaded(Run(h, ops).value.disk.store))
    ensures var w, tip := Run(h, ops).value, TipOf(archives, live, Loaded(Run(h, ops).value.disk.store));
      && Vouched(w.disk) <= tip.sequence
      && (!Owed(ops) && StoreBytes(w.disk.store) <= MAX_CHECKPOINT_FILE_BYTES ==>
            |w.history| < tip.sequence + CHECKPOINT_INTERVAL)
  {
    hide ChainInvariant;
    hide StoreInvariant;
    hide Accepted;
    hide Loaded;
    hide StoreBytes;
    RunInvariant(h, ops);
    CoveredIffPaid(h, ops);
    hide Run;
    hide Owed;
    var w := Run(h, ops).value;
    var checkpoints := Loaded(w.disk.store);
    LoadedIsNewest(w);
    if checkpoints != [] {
      LoadedVouches(w, checkpoints[0]);
      NewestWithin(h, archives, live, checkpoints, checkpoints[|checkpoints| - 1]);
    }
  }

  /** The newest loaded checkpoint lags the tip by 256 or more. */
  predicate Lags(w: World) {
    Vouched(w.disk) + CHECKPOINT_INTERVAL <= |w.history|
  }

  /** With its records after sequence `n` removed, the ledger still reopens. */
  ghost predicate CutAccepted(h: Hmac, w: World, n: nat) {
    Cuts(w, n) && n + 1 <= First(w.disk.archives) + |Records(w.disk)| && Reopens(h, Truncated(w.disk, n))
  }

  ghost predicate Shortened(h: Hmac, w: World, n: nat) {
    n + CHECKPOINT_INTERVAL <= |w.history| && CutAccepted(h, w, n)
  }

  /**
   In every run, some removal of 256 or more newest records is accepted if and only if the newest
   loaded checkpoint lags so far.
   */
  lemma TruncatableIffLagging(h: Hmac, ops: seq<Op>)
    requires Run(h, ops).Some? && Reopens(h, Run(h, ops).value.disk)
    ensures (exists n :: Shortened(h, Run(h, ops).value, n)) <==> Lags(Run(h, ops).value)
  {
    hide ChainInvariant;
    hide StoreInvariant;
    hide Reopens;
    RunInvariant(h, ops);
    hide Run;
    var w := Run(h, ops).value;
    if Lags(w) {
      VouchedCuts(h, w);
      TruncationAcceptedIff(h, w, Vouched(w.disk));
      assert Shortened(h, w, Vouched(w.disk));
    } else {
      forall n ensures !Shortened(h, w, n) {
        if Cuts(w, n) {
          TruncationAcceptedIff(h, w, n);
        }
      }
    }
  }

  lemma VouchedCuts(h: Hmac, w: World)
    requires Invariant(h, w) && Reopens(h, w.disk) && Vouched(w.disk) <= |w.history|
    ensures Cuts(w, Vouched(w.disk))
  {
    hide ChainInvariant;
    hide StoreInvariant;
    hide Reopens;
    hide Loaded;
    hide NewestAnchor;
    var first := First(w.disk.archives);
    ReopensIffAnchored(h, w);
    LoadedIsNewest(w);
    NewestAnchorFound(Loaded(w.disk.store), first);
    if first != 1 {
      var c := NewestAnchor(Loaded(w.disk.store), first).value;
      LoadedVouches(w, c);
    }
  }

  // ---------------------------------------------------------------- runs that lag

  /**
   511 appends of which only the 256th reported an error, although its line was
   durable: its checkpoint was skipped, no checkpoint write failed, and any number
   of newest records can be removed.
   */
  lemma SkippedCheckpointLags(h: Hmac) returns (ops: seq<Op>)
    ensures Run(h, ops).Some? && forall op :: op in ops ==> !op.AppendStore? && !MovesStore(op)
    ensures var w := Run(h, ops).value;
      && |w.history| == 511 && Lags(w) && Owed(ops)
      && forall n :: 0 <= n <= 511 ==> CutAccepted(h, w, n)
  {
    StartsEmpty(h);
    ops := WriteMany(h, [], 511);
    RunInvariant(h, ops);
    NeverPrunedReopens(h, ops);
    CoveredIffPaid(h, ops);
    NothingLoaded();
    hide Run;
    hide Reopens;
    hide Owed;
    var w := Run(h, ops).value;
    forall n: nat | n <= 511 ensures CutAccepted(h, w, n) {
      TruncationAcceptedIff(h, w, n);
    }
  }

  /** A checkpoint line that is durable although its write was reported as failed. */
  lemma MarkUnseen(h: Hmac, ops: seq<Op>) returns (more: seq<Op>)
    requires Run(h, ops).Some?
    requires |Run(h, ops).value.history| > 0 && Run(h, ops).value.counted + LINE <= MAX_CHECKPOINT_FILE_BYTES
    ensures Run(h, more).Some?
    ensures var w, w' := Run(h, ops).value, Run(h, more).value;
      && w'.history == w.history && w'.disk == w.disk.(store := w'.disk.store) && w'.counted == w.counted
      && StoreBytes(w'.disk.store) == StoreBytes(w.disk.store) + LINE
  {
    var mark := AppendStore(Mark(Run(h, ops).value, TipMark), false);
    RunSnoc(h, ops, mark);
    StoreSnoc(Run(h, ops).value.disk.store, mark.checkpoint);
    more := ops + [mark];
  }

  /**
   One such line is enough. After 10484 records with a reopen each, the ledger stays open: the
   checkpoint of record 10496 is durable but reported as failed, and that of record 10752 takes
   the store past its bound. The store is not loaded then, and although no checkpoint is owed
   any number of newest records can be removed.
   */
  lemma UnseenLineLags(h: Hmac) returns (ops: seq<Op>)
    ensures Run(h, ops).Some? && !Owed(ops)
    ensures var w := Run(h, ops).value;
      && StoreBytes(w.disk.store) > MAX_CHECKPOINT_FILE_BYTES && |w.history| == 10752
      && forall n :: 0 <= n <= 10752 ==> CutAccepted(h, w, n)
  {
    hide StoreBytes;
    hide ChainInvariant;
    hide StoreInvariant;
    StartsEmpty(h);
    hide Run;
    ops := Grow(h, [], 10484);
    ops := WriteMany(h, ops, 12);
    StoreIsCounted(h, ops);
    ops := MarkUnseen(h, ops);
    ops := WriteMany(h, ops, 256);
    ops := MarkTip(h, ops, TipMark);
    RunInvariant(h, ops);
    ReopensIffAnchored(h, Run(h, ops).value);
    LoadedIsNewest(Run(h, ops).value);
    hide Reopens;
    var w := Run(h, ops).value;
    forall n: nat | n <= 10752 ensures CutAccepted(h, w, n) {
      TruncationAcceptedIff(h, w, n);
    }
  }

  lemma NothingLoaded()
    ensures Loaded([]) == []
  {
  }

  lemma StartsEmpty(h: Hmac)
    ensures Run(h, []) == Some(World(EMPTY_DISK, [], 0))
  {
  }
}
