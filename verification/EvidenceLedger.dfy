/**
 The ledger object: cached chain tip, archive names and checkpoints over the
 files of `EvidenceDisk`. Every write to a file is one enabled `Op`, recorded in
 the ghost field `ops`, so `StopAnywhereReopens` covers a stop inside any call.
 I/O failures are the arbitrary answers of `Succeeds`, counted in the ghost field
 `faults`: what a method promises when nothing fails is stated for `faults` unchanged.
 */
module EvidenceLedger {
  import opened Wrappers
  import opened EvidenceChain
  import opened EvidenceVerify
  import opened EvidenceDisk
  import opened EvidenceTail
  import opened EvidenceWitness
  import opened EvidencePaging

  datatype Name = Name(first: nat, last: nat)

  function NamesOf(archives: seq<Archive>): (names: seq<Name>)
    ensures |names| == |archives|
    ensures forall i :: 0 <= i < |names| ==> names[i] == Name(archives[i].first, archives[i].last)
  {
    seq(|archives|, i requires 0 <= i < |archives| => Name(archives[i].first, archives[i].last))
  }

  function FileBytes(lineBytes: Record -> nat, file: seq<Record>): nat {
    if file == [] then 0 else FileBytes(lineBytes, file[..|file| - 1]) + lineBytes(file[|file| - 1])
  }

  /** The encoded length of a checkpoint line. */
  method CheckpointLength() returns (n: nat)
    ensures MIN_CHECKPOINT_BYTES <= n
  {
    n :| MIN_CHECKPOINT_BYTES <= n;
  }

  lemma FileSnoc(lineBytes: Record -> nat, file: seq<Record>, r: Record)
    ensures FileBytes(lineBytes, file + [r]) == FileBytes(lineBytes, file) + lineBytes(r)
  {
    assert (file + [r])[..|file|] == file;
  }

  lemma EmptyFileBytes(lineBytes: Record -> nat, file: seq<Record>)
    requires forall r :: lineBytes(r) > 0
    ensures FileBytes(lineBytes, file) == 0 <==> file == []
  {
  }

  lemma TipRecord(h: Hmac, w: World)
    requires ChainInvariant(h, w)
    ensures |w.history| > 0 <==> Records(w.disk) != []
    ensures Records(w.disk) != [] ==>
      var r := Records(w.disk)[|Records(w.disk)| - 1];
      r.sequence == |w.history| && r.mac == w.Tip().mac && r.mac == h(r.Signed())
    ensures Next(w.disk.archives, 1) == |w.history| + 1 - |w.disk.live|
  {
    hide Tracks;
    hide Contiguous;
    hide Flatten;
    var records, archives := Records(w.disk), w.disk.archives;
    ContiguousLength(archives, First(archives));
    if archives != [] {
      ArchiveNonempty(archives, First(archives), 0);
      PruneRecords(archives);
    }
    TracksTip(h, records, First(archives), w.history);
    if records != [] {
      TracksAt(h, records, First(archives), w.history, |records| - 1);
    }
  }

  lemma NewestArchiveRecord(h: Hmac, w: World)
    requires ChainInvariant(h, w) && w.disk.live == [] && w.disk.archives != []
    ensures var a := w.disk.archives[|w.disk.archives| - 1];
      && a.records != []
      && a.records[|a.records| - 1] == Records(w.disk)[|Records(w.disk)| - 1]
  {
    hide Tracks;
    hide Contiguous;
    ArchiveNonempty(w.disk.archives, First(w.disk.archives), |w.disk.archives| - 1);
    assert Records(w.disk) == Flatten(w.disk.archives);
  }

  /** `r` is the authentic newest record of the history. */
  predicate IsTipRecord(h: Hmac, w: World, r: Record) {
    r.sequence == |w.history| && r.mac == w.Tip().mac && r.mac == h(r.Signed())
  }

  /** The parts of the invariant that the ledger object relies on. */
  lemma JournalFacts(h: Hmac, ops: seq<Op>, w: World)
    requires Run(h, ops) == Some(w)
    ensures Next(w.disk.archives, 1) == |w.history| + 1 - |w.disk.live|
    ensures First(w.disk.archives) >= 1
    ensures !w.disk.livePresent ==> w.disk.live == []
    ensures |w.history| == 0 <==> w.disk.archives == [] && w.disk.live == []
    ensures w.disk.live != [] ==> IsTipRecord(h, w, w.disk.live[|w.disk.live| - 1])
    ensures w.disk.live == [] && w.disk.archives != [] ==>
      var a := w.disk.archives[|w.disk.archives| - 1];
      a.records != [] && IsTipRecord(h, w, a.records[|a.records| - 1])
    ensures |w.disk.archives| >= 2 ==> w.disk.archives[1].records != []
  {
    hide Tracks;
    hide Contiguous;
    hide StoreInvariant;
    hide Run;
    RunInvariant(h, ops);
    TipRecord(h, w);
    if w.disk.archives != [] {
      ArchiveNonempty(w.disk.archives, First(w.disk.archives), 0);
      PruneRecords(w.disk.archives);
      if w.disk.live == [] {
        NewestArchiveRecord(h, w);
      }
      if |w.disk.archives| >= 2 {
        ArchiveNonempty(w.disk.archives, First(w.disk.archives), 1);
      }
    }
  }

  lemma {:induction false} NameBelow(archives: seq<Archive>, first: nat, i: nat)
    requires Contiguous(archives, first) && NamesAllowed(archives) && i < |archives|
    ensures archives[i].first < Next(archives, first)
    decreases |archives| - i
  {
    assert archives[i] in archives;
    if i + 1 < |archives| {
      NameBelow(archives, first, i + 1);
      assert archives[i + 1].first == archives[i].last + 1;
    }
  }

  /** The name of the next archive is not taken. */
  lemma FreshName(h: Hmac, ops: seq<Op>, w: World)
    requires Run(h, ops) == Some(w)
    ensures forall last :: Name(Next(w.disk.archives, 1), last) !in NamesOf(w.disk.archives)
  {
    hide Run;
    hide Tracks;
    hide Contiguous;
    hide NamesAllowed;
    RunInvariant(h, ops);
    forall name | name in NamesOf(w.disk.archives) ensures name.first < Next(w.disk.archives, 1) {
      var i :| 0 <= i < |w.disk.archives| && name == NamesOf(w.disk.archives)[i];
      NameBelow(w.disk.archives, First(w.disk.archives), i);
    }
  }

  /** The newest line of a file, if it has one. */
  method ReadNewestLine(file: seq<Record>) returns (line: Option<Record>)
    ensures line == if file == [] then None else Some(file[|file| - 1])
  {
    var lines := ReadNewest(file, 1);
    line := if lines == [] then None else Some(lines[0]);
  }

  /** Only the checkpoint store and the witness differ. */
  ghost predicate SameJournal(before: World, after: World) {
    && after.history == before.history
    && after.disk == before.disk.(store := after.disk.store, witnessed := after.disk.witnessed)
  }

  /** Only the checkpoint store, the witness and some oldest archives differ. */
  ghost predicate SameTail(before: World, after: World) {
    && after.history == before.history
    && after.disk.live == before.disk.live
    && after.disk.livePresent == before.disk.livePresent
    && (before.disk.archives != [] ==> after.disk.archives != [])
    && Next(after.disk.archives, 1) == Next(before.disk.archives, 1)
  }

  /** Only oldest archives are gone, and the retained number is left. */
  ghost predicate Pruned(before: seq<Archive>, after: seq<Archive>) {
    && |after| <= |before| && after == before[|before| - |after|..]
    && (after == before || |after| >= MAX_RETAINED_ARCHIVES)
  }

  lemma PrunedFurther(before: seq<Archive>, longer: seq<Archive>, after: seq<Archive>)
    requires Pruned(before, longer) && (after == longer || (|longer| > MAX_RETAINED_ARCHIVES && after == longer[1..]))
    ensures Pruned(before, after)
  {
  }

  /** Among the operations is a checkpoint of this kind for this sequence. */
  ghost predicate Marked(ops: seq<Op>, kind: Kind, sequence: nat) {
    exists i :: 0 <= i < |ops| && ops[i].AppendStore?
                && ops[i].checkpoint.kind == kind && ops[i].checkpoint.sequence == sequence
  }

  /** A tip checkpoint for this sequence and MAC. */
  predicate IsTipMark(c: Checkpoint, sequence: nat, mac: Mac) {
    c.kind == TipMark && c.sequence == sequence && c.lastMAC == mac
  }

  ghost predicate SomeTipMark(checkpoints: seq<Checkpoint>, sequence: nat, mac: Mac) {
    exists i :: 0 <= i < |checkpoints| && IsTipMark(checkpoints[i], sequence, mac)
  }

  lemma NothingIsCovered(w: World)
    requires w.history == []
    ensures Covered(w)
  {
  }

  lemma TipMarkCovers(h: Hmac, ops: seq<Op>, w: World, checkpoints: seq<Checkpoint>)
    requires Run(h, ops) == Some(w) && checkpoints == Loaded(w.disk.store)
    requires SomeTipMark(checkpoints, |w.history|, w.Tip().mac)
    ensures Covered(w)
  {
    hide ChainInvariant;
    RunInvariant(h, ops);
    hide Run;
    LoadedIsNewest(w);
    var i :| 0 <= i < |checkpoints| && IsTipMark(checkpoints[i], |w.history|, w.Tip().mac);
    TipInStoreCovers(w, checkpoints[i]);
  }

  /** What was marked since `n` operations stays so. */
  lemma MarkedStays(ops: seq<Op>, more: seq<Op>, n: nat, kind: Kind, sequence: nat)
    requires n <= |ops| && ops <= more && Marked(ops[n..], kind, sequence)
    ensures Marked(more[n..], kind, sequence)
  {
    var i :| 0 <= i < |ops[n..]| && ops[n..][i].AppendStore?
             && ops[n..][i].checkpoint.kind == kind && ops[n..][i].checkpoint.sequence == sequence;
    assert more[n..][i] == ops[n..][i];
  }

  lemma MarkedEarlier(ops: seq<Op>, m: nat, n: nat, kind: Kind, sequence: nat)
    requires m <= n <= |ops| && Marked(ops[n..], kind, sequence)
    ensures Marked(ops[m..], kind, sequence)
  {
    var i :| 0 <= i < |ops[n..]| && ops[n..][i].AppendStore?
             && ops[n..][i].checkpoint.kind == kind && ops[n..][i].checkpoint.sequence == sequence;
    assert ops[m..][n - m + i] == ops[n..][i];
  }

  lemma SameJournalStart(w: World)
    ensures SameJournal(w, w)
  {
  }

  lemma SameJournalMeans(before: World, after: World)
    requires SameJournal(before, after)
    ensures after.history == before.history && after.disk.live == before.disk.live
    ensures after.disk.livePresent == before.disk.livePresent && after.disk.archives == before.disk.archives
  {
  }

  lemma SameTailMeans(before: World, after: World)
    requires SameTail(before, after)
    ensures after.history == before.history && after.disk.live == before.disk.live
    ensures after.disk.livePresent == before.disk.livePresent
    ensures before.disk.archives != [] ==> after.disk.archives != []
  {
  }

  lemma FirstName(archives: seq<Archive>, names: seq<Name>)
    requires names == NamesOf(archives) && archives != []
    ensures names != [] && First(archives) == names[0].first
  {
  }

  lemma SameTailStart(w: World)
    ensures SameTail(w, w) && Pruned(w.disk.archives, w.disk.archives)
  {
  }

  lemma JournalIsTail(before: World, after: World)
    requires SameJournal(before, after)
    ensures SameTail(before, after) && after.disk.archives == before.disk.archives
  {
  }

  /** What removing the oldest archive keeps, once the store ends in the anchor of the next one. */
  lemma AnchoredPrune(h: Hmac, before: World, anchored: World)
    requires SameTail(before, anchored) && Enabled(h, anchored, RemoveOldest) && Covered(anchored)
    ensures SameTail(before, Step(anchored, RemoveOldest)) && Covered(Step(anchored, RemoveOldest))
    ensures NamesOf(Step(anchored, RemoveOldest).disk.archives) == NamesOf(anchored.disk.archives)[1..]
    ensures Step(anchored, RemoveOldest).disk.archives == anchored.disk.archives[1..]
    ensures Step(anchored, RemoveOldest).counted == anchored.counted
  {
    PruneOneKeepsTail(h, before, anchored);
    StepKeepsCovered(h, anchored, RemoveOldest);
  }

  lemma SameTailAgain(before: World, middle: World, after: World)
    requires SameTail(before, middle) && SameTail(middle, after)
    ensures SameTail(before, after) && after.history == middle.history
  {
  }

  lemma PruneOneKeepsTail(h: Hmac, before: World, anchored: World)
    requires SameTail(before, anchored) && Enabled(h, anchored, RemoveOldest)
    ensures SameTail(before, Step(anchored, RemoveOldest))
    ensures NamesOf(Step(anchored, RemoveOldest).disk.archives) == NamesOf(anchored.disk.archives)[1..]
  {
    var archives := anchored.disk.archives;
    assert archives[1..][|archives| - 2] == archives[|archives| - 1];
  }

  /** One more record in the live file; between the multiples of the interval nothing else changes on disk. */
  ghost predicate Extended(before: World, after: World, record: Record) {
    && SameJournal(Step(before, WriteRecord(record)), after)
    && (record.sequence % CHECKPOINT_INTERVAL != 0 ==> after == Step(before, WriteRecord(record)))
  }

  /** The live file archived and pruned, and the record alone in a new one. */
  ghost predicate ExtendedAfterRotation(before: World, after: World, record: Record) {
    && after.history == before.history + [record.mac] && after.disk.live == [record] && after.disk.livePresent
    && Pruned(
         before.disk.archives + [Archive(Next(before.disk.archives, 1), |before.history|, before.disk.live)],
         after.disk.archives)
  }

  /**
   One more line in the checkpoint store, after what was there unless the line did not fit, and
   one more checkpoint in memory, after as many of the others as fit.
   */
  ghost predicate StoredOnce(before: World, after: World, loaded: seq<Checkpoint>, wasLoaded: seq<Checkpoint>) {
    && after.disk.store != []
    && var n := |after.disk.store| - 1;
    && var c := after.disk.store[n];
    && after.disk.store[..n] ==
         (if before.counted + c.bytes > MAX_CHECKPOINT_FILE_BYTES then [] else before.disk.store)
    && after.counted == (if before.counted + c.bytes > MAX_CHECKPOINT_FILE_BYTES then 0 else before.counted) + c.bytes
    && loaded == Recent(wasLoaded + [c])
  }

  lemma LineStored(before: World, roomed: World, c: Checkpoint, wasLoaded: seq<Checkpoint>)
    requires before.counted + c.bytes <= MAX_CHECKPOINT_FILE_BYTES ==> roomed == before
    requires before.counted + c.bytes > MAX_CHECKPOINT_FILE_BYTES ==> roomed.disk.store == [] && roomed.counted == 0
    ensures StoredOnce(before, Step(roomed, AppendStore(c, true)), Recent(wasLoaded + [c]), wasLoaded)
  {
    var store := roomed.disk.store + [c];
    assert store[..|store| - 1] == roomed.disk.store;
  }

  /** What writing a checkpoint line does to the files. */
  lemma LineWritten(before: World, roomed: World, c: Checkpoint, synced: bool)
    requires SameJournal(before, roomed)
    ensures var w := Step(roomed, AppendStore(c, synced));
      && SameJournal(before, w) && w.disk.store == roomed.disk.store + [c]
      && w.counted == roomed.counted + if synced then c.bytes else 0
  {
  }

  /** When a signed line for the tip may be written. */
  lemma MayStore(h: Hmac, w: World, c: Checkpoint)
    requires c.signed && MIN_CHECKPOINT_BYTES <= c.bytes <= MAX_RECORD_BYTES
    requires w.counted + c.bytes <= MAX_CHECKPOINT_FILE_BYTES
    requires |w.history| > 0 && c.sequence == |w.history| && c.lastMAC == w.Tip().mac
    requires c.kind == RetentionMark ==>
      && |w.disk.archives| > MAX_RETAINED_ARCHIVES && c.retainedFrom == w.disk.archives[1].first
      && w.disk.archives[1].records != [] && c.retainedPrevious == w.disk.archives[1].records[0].previous
    ensures Enabled(h, w, AppendStore(c, true))
  {
  }

  lemma JustMarked(ops: seq<Op>, from: nat, c: Checkpoint, synced: bool)
    requires from <= |ops|
    ensures Marked((ops + [AppendStore(c, synced)])[from..], c.kind, c.sequence)
  {
    var recent := (ops + [AppendStore(c, synced)])[from..];
    assert recent[|ops| - from] == AppendStore(c, synced);
  }

  lemma StoredOnceStays(
      before: World, middle: World, after: World, loaded: seq<Checkpoint>, wasLoaded: seq<Checkpoint>)
    requires StoredOnce(before, middle, loaded, wasLoaded)
    requires after.disk.store == middle.disk.store && after.counted == middle.counted
    ensures StoredOnce(before, after, loaded, wasLoaded)
  {
  }

  /** The live file archived under its range, and the oldest archives perhaps pruned. */
  ghost predicate RotatedFrom(before: World, after: World) {
    && after.history == before.history && after.disk.live == []
    && Pruned(
         before.disk.archives + [Archive(Next(before.disk.archives, 1), |before.history|, before.disk.live)],
         after.disk.archives)
  }

  lemma ExtendedMeans(before: World, after: World, record: Record)
    requires Extended(before, after, record)
    ensures after.history == before.history + [record.mac] && after.disk.live == before.disk.live + [record]
    ensures after.disk.livePresent && after.disk.archives == before.disk.archives
  {
  }

  lemma ExtendedRotated(before: World, rotated: World, after: World, record: Record)
    requires RotatedFrom(before, rotated) && Extended(rotated, after, record)
    ensures ExtendedAfterRotation(before, after, record)
  {
    hide Pruned;
  }

  lemma NextMayBeWritten(h: Hmac, w: World, record: Record)
    requires record.sequence == |w.history| + 1 && record.previous == w.Tip().mac && record.mac == h(record.Signed())
    ensures Enabled(h, w, WriteRecord(record))
  {
  }

  class Ledger {
    const hmac: Hmac
    /** The encoded length of a record line with its newline. */
    const lineBytes: Record -> nat
    const rotateBytes: nat
    const witnessConfigured: bool

    /** The files, and the operations that made them. */
    var files: World
    ghost var ops: seq<Op>

    // cached state
    var sequence: nat
    var lastMAC: Mac
    var fileFirst: nat
    var fileBytes: nat
    var retainedFrom: nat
    var names: seq<Name>
    var checkpoints: seq<Checkpoint>
    var storeBytes: nat
    var status: Status
    /** The last attempt to write the witness failed. */
    var witnessFailed: bool
    ghost var faults: nat
    /** Checkpoint lines that could not be written since the ledger was opened. */
    var checkpointFailures: nat

    /** The files are the result of the recorded operations. */
    ghost predicate OnDisk() reads this {
      Run(hmac, ops) == Some(files)
    }

    ghost predicate AtTip() reads this {
      sequence == |files.history| && lastMAC == files.Tip().mac
    }

    /** The cache describes the files exactly. */
    ghost predicate Synced() reads this {
      && AtTip()
      && fileBytes == FileBytes(lineBytes, files.disk.live)
      && fileFirst == Next(files.disk.archives, 1)
    }

    /** The parts of the cache that hold even after a failed append. */
    ghost predicate Cached() reads this {
      && names == NamesOf(files.disk.archives)
      && storeBytes == files.counted
      && retainedFrom == First(files.disk.archives)
    }

    ghost predicate Valid() reads this {
      && (forall r :: lineBytes(r) > 0)
      && OnDisk()
      && Cached()
      && (files.disk.livePresent && fileBytes == FileBytes(lineBytes, files.disk.live) ==> Synced())
    }

    constructor (hmac: Hmac, lineBytes: Record -> nat, rotateBytes: nat, witnessConfigured: bool,
                 files: World, ghost ops: seq<Op>)
      requires Run(hmac, ops) == Some(files)
      ensures OnDisk() && this.files == files && this.ops == ops
      ensures this.hmac == hmac && this.lineBytes == lineBytes
    {
      this.hmac, this.lineBytes, this.rotateBytes, this.witnessConfigured :=
        hmac, lineBytes, rotateBytes, witnessConfigured;
      this.files, this.ops := files, ops;
      sequence, lastMAC, fileFirst, fileBytes, retainedFrom := 0, NoMac, 1, 0, 1;
      names, checkpoints, storeBytes, checkpointFailures := [], [], 0, 0;
      status := Status(witnessConfigured, false, false, false, 0);
      witnessFailed, faults := false, 0;
    }

    /** An attempted file or network operation; either answer is possible. */
    method Succeeds() returns (ok: bool)
      modifies this`faults
      ensures faults == old(faults) + if ok then 0 else 1
    {
      ok := *;
      faults := if ok then faults else faults + 1;
    }

    /** Makes one file operation durable. */
    method Perform(op: Op)
      requires OnDisk() && Enabled(hmac, files, op)
      modifies this`files, this`ops
      ensures OnDisk() && files == old(Step(files, op)) && ops == old(ops) + [op]
    {
      RunSnoc(hmac, ops, op);
      files := Step(files, op);
      ops := ops + [op];
    }

    // -------------------------------------------------------------- checkpoints

    /** Whether a configured witness now holds the tip. */
    ghost predicate Witnessed() reads this {
      !witnessFailed && (witnessConfigured && sequence > 0 ==> files.disk.witnessed == Some(Tip(sequence, lastMAC)))
    }

    /** Publishes the tip to the external witness; after a failure it may wait before trying again. */
    method UpdateWitness()
      requires OnDisk() && AtTip()
      modifies this`files, this`ops, this`status, this`witnessFailed, this`faults
      ensures OnDisk() && old(ops) <= ops && faults >= old(faults)
      ensures
        || files == old(files)
        || files == old(files.(disk := files.disk.(witnessed := Some(Tip(sequence, lastMAC)))))
      ensures faults == old(faults) && !old(witnessFailed) ==> Witnessed()
      ensures !witnessConfigured || sequence == 0 ==>
        files == old(files) && status == old(status) && witnessFailed == old(witnessFailed)
      ensures witnessConfigured && sequence > 0 && !witnessFailed ==> StatusConfirms() && !status.degraded
      ensures faults > old(faults) ==>
        witnessFailed && files == old(files) && !status.verified && !status.reachable && status.degraded
    {
      if !witnessConfigured || sequence == 0 {
        return;
      }
      var recent: bool := *;
      if witnessFailed && recent {
        return;
      }
      var written := Succeeds();
      if !written {
        witnessFailed := true;
        status := Status(true, false, true, false, 0);
        return;
      }
      Perform(PublishWitness);
      witnessFailed := false;
      status := Status(true, true, false, true, sequence);
    }

    /** Moves a full checkpoint store aside so that `n` more bytes fit. */
    method MakeRoom(n: nat) returns (ok: bool)
      requires OnDisk() && storeBytes == files.counted
      requires MIN_CHECKPOINT_BYTES <= n <= MAX_RECORD_BYTES
      modifies this`faults, this`files, this`ops, this`storeBytes
      ensures OnDisk() && old(ops) <= ops && storeBytes == files.counted
      ensures SameJournal(old(files), files)
      ensures ok ==> storeBytes + n <= MAX_CHECKPOINT_FILE_BYTES
      ensures ok && old(storeBytes) + n <= MAX_CHECKPOINT_FILE_BYTES ==> files == old(files)
      ensures ok && old(storeBytes) + n > MAX_CHECKPOINT_FILE_BYTES ==> files.disk.store == [] && files.counted == 0
      ensures faults >= old(faults) && (ok || faults > old(faults))
    {
      if storeBytes + n > MAX_CHECKPOINT_FILE_BYTES {
        var moved := Succeeds();
        if !moved {
          return false;
        }
        Perform(RotateStore(n));
        storeBytes := 0;
      }
      return true;
    }

    /**
     Appends one signed checkpoint for the current tip, moving a full store aside first.
     The line may be durable although an error is reported; it is not counted then.
     */
    method WriteCheckpoint(kind: Kind, from: nat, previous: Mac) returns (ok: bool)
      requires OnDisk() && storeBytes == files.counted && AtTip() && 0 < sequence
      requires kind == RetentionMark ==>
        && |files.disk.archives| > MAX_RETAINED_ARCHIVES && from == files.disk.archives[1].first
        && files.disk.archives[1].records != [] && previous == files.disk.archives[1].records[0].previous
      modifies this`faults, this`files, this`ops, this`storeBytes, this`checkpoints
      ensures OnDisk() && old(ops) <= ops && storeBytes == files.counted
      ensures SameJournal(old(files), files)
      ensures ok ==>
        && files.disk.store != []
        && var c := files.disk.store[|files.disk.store| - 1];
           c.kind == kind && c.sequence == sequence && c.retainedFrom == from
      ensures ok ==> Marked(ops[|old(ops)|..], kind, sequence)
      ensures ok ==> StoredOnce(old(files), files, checkpoints, old(checkpoints))
      ensures faults >= old(faults) && (ok || faults > old(faults))
    {
      hide Run;
      hide StoreBytes;
      hide StoredOnce;
      hide Recent;
      hide Step;
      hide SameJournal;
      hide Marked;
      hide Enabled;
      SameJournalStart(files);
      var n := CheckpointLength();
      if n > MAX_RECORD_BYTES {
        faults := faults + 1;
        return false;
      }
      var room := MakeRoom(n);
      var written := Succeeds();
      if !room || !written {
        return false;
      }
      var c := Checkpoint(kind, sequence, lastMAC, from, previous, true, n);
      SameJournalMeans(old(files), files);
      MayStore(hmac, files, c);
      LineStored(old(files), files, c, checkpoints);
      ghost var roomed, before := files, ops;
      ok := StoreLine(c);
      LineWritten(old(files), roomed, c, ok);
      JustMarked(before, |old(ops)|, c, ok);
    }

    /** Writes a line and flushes it; it stays in the file though the flush fails, but is not counted. */
    method StoreLine(c: Checkpoint) returns (ok: bool)
      requires OnDisk() && storeBytes == files.counted && Enabled(hmac, files, AppendStore(c, true))
      modifies this`faults, this`files, this`ops, this`storeBytes, this`checkpoints
      ensures OnDisk() && ops == old(ops) + [AppendStore(c, ok)] && files == old(Step(files, AppendStore(c, ok)))
      ensures storeBytes == files.counted && faults == old(faults) + if ok then 0 else 1
      ensures ok ==> checkpoints == Recent(old(checkpoints) + [c])
    {
      hide Run;
      hide StoreBytes;
      hide Recent;
      ok := Succeeds();
      Perform(AppendStore(c, ok));
      if ok {
        storeBytes := storeBytes + c.bytes;
        Remember(c);
      }
    }

    /** Keeps the newest checkpoints in memory. */
    method Remember(c: Checkpoint)
      modifies this`checkpoints
      ensures checkpoints == Recent(old(checkpoints) + [c])
    {
      checkpoints := checkpoints + [c];
      if |checkpoints| > MAX_CHECKPOINTS_IN_MEMORY {
        checkpoints := checkpoints[|checkpoints| - MAX_CHECKPOINTS_IN_MEMORY..];
      }
    }

    /** A checkpoint and, once it is durable, the witness. */
    method AppendCheckpoint(kind: Kind, from: nat, previous: Mac) returns (ok: bool)
      requires OnDisk() && storeBytes == files.counted && AtTip() && 0 < sequence
      requires kind == RetentionMark ==>
        && |files.disk.archives| > MAX_RETAINED_ARCHIVES && from == files.disk.archives[1].first
        && files.disk.archives[1].records != [] && previous == files.disk.archives[1].records[0].previous
      modifies this`faults, this`witnessFailed, this`files, this`ops, this`storeBytes, this`checkpoints, this`status,
               this`checkpointFailures
      ensures OnDisk() && old(ops) <= ops && storeBytes == files.counted
      ensures SameJournal(old(files), files)
      ensures checkpointFailures == old(checkpointFailures) + if ok then 0 else 1
      ensures ok ==>
        && files.disk.store != []
        && var c := files.disk.store[|files.disk.store| - 1];
           c.kind == kind && c.sequence == sequence && c.retainedFrom == from
      ensures ok ==> Covered(files) && Marked(ops[|old(ops)|..], kind, sequence)
      ensures ok ==> StoredOnce(old(files), files, checkpoints, old(checkpoints))
      ensures faults >= old(faults) && (ok || faults > old(faults))
      ensures faults == old(faults) && !old(witnessFailed) ==> Witnessed()
    {
      hide Marked;
      hide StoredOnce;
      ok := WriteCheckpoint(kind, from, previous);
      if !ok {
        checkpointFailures := checkpointFailures + 1;
        return;
      }
      ghost var marked, stored := ops, files;
      UpdateWitness();
      StoredOnceStays(old(files), stored, files, checkpoints, old(checkpoints));
      MarkedStays(marked, ops, |old(ops)|, kind, sequence);
    }

    /** A loaded checkpoint vouches for the tip already. */
    ghost predicate TipMarked() reads this {
      SomeTipMark(checkpoints, sequence, lastMAC)
    }

    /** Writes a tip checkpoint unless the loaded store already holds one. */
    method EnsureTipCheckpoint() returns (ok: bool)
      requires OnDisk() && storeBytes == files.counted && checkpoints == Loaded(files.disk.store)
      requires AtTip()
      modifies this`faults, this`witnessFailed, this`files, this`ops, this`storeBytes, this`checkpoints, this`status,
               this`checkpointFailures
      ensures OnDisk() && old(ops) <= ops && storeBytes == files.counted
      ensures SameJournal(old(files), files)
      ensures checkpointFailures == old(checkpointFailures) + if ok then 0 else 1
      ensures ok ==> Covered(files)
      ensures faults >= old(faults) && (ok || faults > old(faults))
      ensures sequence == 0 || old(TipMarked()) ==> ok && files == old(files) && status == old(status)
      ensures sequence > 0 && !old(TipMarked()) && ok ==> Marked(ops[|old(ops)|..], TipMark, sequence)
      ensures sequence > 0 && !old(TipMarked()) && faults == old(faults) && !old(witnessFailed) ==> Witnessed()
      ensures witnessFailed == old(witnessFailed) || (sequence > 0 && !old(TipMarked()))
    {
      hide Run;
      hide Marked;
      hide Covered;
      hide SomeTipMark;
      if sequence == 0 {
        NothingIsCovered(files);
        return true;
      }
      var found := FindTipMark();
      if found {
        TipMarkCovers(hmac, ops, files, checkpoints);
        return true;
      }
      ok := AppendCheckpoint(TipMark, 0, NoMac);
    }

    /** The search for a tip checkpoint among the loaded ones. */
    method FindTipMark() returns (found: bool)
      ensures found == TipMarked()
    {
      var i := 0;
      while i < |checkpoints|
        invariant 0 <= i <= |checkpoints|
        invariant forall j :: 0 <= j < i ==> !IsTipMark(checkpoints[j], sequence, lastMAC)
      {
        if IsTipMark(checkpoints[i], sequence, lastMAC) {
          return true;
        }
        i := i + 1;
      }
      return false;
    }

    // -------------------------------------------------------------- rotation and retention

    /** Anchors and removes the oldest archive. */
    method PruneOne() returns (ok: bool)
      requires OnDisk() && storeBytes == files.counted && AtTip() && 0 < sequence
      requires names == NamesOf(files.disk.archives) && |names| > MAX_RETAINED_ARCHIVES
      modifies this`faults, this`witnessFailed, this`files, this`ops, this`storeBytes, this`checkpoints, this`status,
               this`checkpointFailures, this`names
      ensures OnDisk() && old(ops) <= ops && storeBytes == files.counted
      ensures names == NamesOf(files.disk.archives) && names == if ok then old(names)[1..] else old(names)
      ensures files.disk.archives == if ok then old(files.disk.archives)[1..] else old(files.disk.archives)
      ensures ok ==> Marked(ops[|old(ops)|..], RetentionMark, sequence)
      ensures SameTail(old(files), files)
      ensures checkpointFailures >= old(checkpointFailures)
      ensures checkpointFailures == old(checkpointFailures) ==> Covered(files)
      ensures faults >= old(faults) && (ok || faults > old(faults))
    {
      hide Run;
      hide Covered;
      hide SameTail;
      hide Step;
      hide StoreBytes;
      hide NamesOf;
      hide Marked;
      JournalFacts(hmac, ops, files);
      SameTailStart(files);
      var firstPrevious := files.disk.archives[1].records[0].previous;
      ok := AppendCheckpoint(RetentionMark, names[1].first, firstPrevious);
      JournalIsTail(old(files), files);
      if !ok {
        return;
      }
      ok := Succeeds();
      if !ok {
        return;
      }
      AnchoredPrune(hmac, old(files), files);
      ghost var anchored := ops;
      Perform(RemoveOldest);
      MarkedStays(anchored, ops, |old(ops)|, RetentionMark, sequence);
      names := names[1..];
    }

    /** Removes the oldest archives beyond the retained number, each after its signed anchor. */
    method PruneArchives()
      requires OnDisk() && storeBytes == files.counted && AtTip() && 0 < sequence
      requires names == NamesOf(files.disk.archives)
      modifies this`faults, this`witnessFailed, this`files, this`ops, this`storeBytes, this`checkpoints, this`status,
               this`checkpointFailures, this`names
      ensures OnDisk() && old(ops) <= ops && storeBytes == files.counted
      ensures names == NamesOf(files.disk.archives)
      ensures SameTail(old(files), files)
      ensures checkpointFailures >= old(checkpointFailures)
      ensures checkpointFailures == old(checkpointFailures) && old(Covered(files)) ==> Covered(files)
      ensures faults >= old(faults)
      ensures |names| <= MAX_RETAINED_ARCHIVES || faults > old(faults)
      ensures Pruned(old(files.disk.archives), files.disk.archives)
    {
      hide Run;
      hide SameTail;
      hide StoreBytes;
      hide NamesOf;
      hide Covered;
      hide Pruned;
      hide Marked;
      SameTailStart(files);
      var going := true;
      while going && |names| > MAX_RETAINED_ARCHIVES
        invariant OnDisk() && old(ops) <= ops && storeBytes == files.counted
        invariant names == NamesOf(files.disk.archives)
        invariant SameTail(old(files), files)
        invariant checkpointFailures >= old(checkpointFailures)
        invariant faults >= old(faults) && (going || faults > old(faults))
        invariant Pruned(old(files.disk.archives), files.disk.archives) && files.history == old(files.history)
        invariant checkpointFailures == old(checkpointFailures) && old(Covered(files)) ==> Covered(files)
        decreases if going then |names| + 1 else 0
      {
        ghost var was := files;
        going := PruneOne();
        PrunedFurther(old(files.disk.archives), was.disk.archives, files.disk.archives);
        SameTailAgain(old(files), was, files);
      }
    }

    /** Archives the live file under the name of its sequence range. */
    method ArchiveLiveFile()
      requires Valid() && Synced() && files.disk.live != [] && sequence > 0
      modifies this`files, this`ops, this`names, this`retainedFrom
      ensures OnDisk() && Cached() && AtTip() && ops == old(ops) + [ArchiveLive]
      ensures files.history == old(files.history) && files.disk.store == old(files.disk.store)
      ensures files.disk.live == [] && !files.disk.livePresent && files.disk.archives != []
      ensures files.disk.archives ==
        old(files.disk.archives) + [Archive(old(fileFirst), sequence, old(files.disk.live))]
      ensures Next(files.disk.archives, 1) == sequence + 1
    {
      hide Run;
      Perform(ArchiveLive);
      names := names + [Name(fileFirst, sequence)];
      retainedFrom := if names[0].first > 1 then names[0].first else 1;
      assert names == NamesOf(files.disk.archives);
      JournalFacts(hmac, ops, files);
    }

    /** Archives the live file, marks the archive with a checkpoint and prunes. */
    method Rotate() returns (ok: bool)
      requires Valid() && Synced()
      modifies this`faults, this`witnessFailed, this`files, this`ops, this`storeBytes, this`checkpoints, this`status,
               this`checkpointFailures,
               this`names, this`fileFirst, this`fileBytes, this`retainedFrom
      ensures Valid() && Synced() && old(ops) <= ops
      ensures files.history == old(files.history)
      ensures !ok ==> files == old(files)
      ensures ok ==> files.disk.live == [] && (old(files.disk.live) != [] ==> !files.disk.livePresent)
      ensures checkpointFailures >= old(checkpointFailures)
      ensures checkpointFailures == old(checkpointFailures) && old(Covered(files)) ==> Covered(files)
      ensures faults >= old(faults) && (ok || faults > old(faults))
      ensures old(files.disk.live) != [] ==> |files.disk.archives| <= MAX_RETAINED_ARCHIVES || faults > old(faults)
      ensures old(files.disk.live) == [] ==> files == old(files)
      ensures ok && old(files.disk.live) != [] ==>
        var whole := Archive(old(fileFirst), sequence, old(files.disk.live));
        Pruned(old(files.disk.archives) + [whole], files.disk.archives)
      ensures old(files.disk.live) != [] && faults == old(faults) ==> Marked(ops[|old(ops)|..], ArchiveMark, sequence)
    {
      hide Run;
      hide Pruned;
      hide Marked;
      EmptyFileBytes(lineBytes, files.disk.live);
      if sequence == 0 || fileBytes == 0 {
        JournalFacts(hmac, ops, files);
        return true;
      }
      FreshName(hmac, ops, files);
      var renamed := Succeeds();
      if Name(fileFirst, sequence) in names || !renamed {
        return false;
      }
      ArchiveLiveFile();
      ghost var archived := ops;
      FinishRotation();
      if faults == old(faults) {
        MarkedEarlier(ops, |old(ops)|, |archived|, ArchiveMark, sequence);
      }
      return true;
    }

    /** Marks the new archive, prunes, and starts an empty live file. */
    method FinishRotation()
      requires (forall r :: lineBytes(r) > 0) && OnDisk() && Cached() && AtTip() && 0 < sequence
      requires files.disk.live == [] && !files.disk.livePresent && files.disk.archives != []
      modifies this`faults, this`witnessFailed, this`files, this`ops, this`storeBytes, this`checkpoints, this`status,
               this`checkpointFailures,
               this`names, this`fileFirst, this`fileBytes, this`retainedFrom
      ensures Valid() && Synced() && old(ops) <= ops
      ensures files.history == old(files.history) && files.disk.live == [] && !files.disk.livePresent
      ensures checkpointFailures >= old(checkpointFailures)
      ensures checkpointFailures == old(checkpointFailures) && old(Covered(files)) ==> Covered(files)
      ensures faults >= old(faults)
      ensures |files.disk.archives| <= MAX_RETAINED_ARCHIVES || faults > old(faults)
      ensures Pruned(old(files.disk.archives), files.disk.archives)
      ensures faults == old(faults) ==> Marked(ops[|old(ops)|..], ArchiveMark, sequence)
    {
      hide Marked;
      hide Pruned;
      hide StoreBytes;
      hide FileBytes;
      hide Covered;
      hide NamesOf;
      hide Run;
      hide SameTail;
      hide SameJournal;
      hide Next;
      hide First;
      var marked := AppendCheckpoint(ArchiveMark, 0, NoMac);
      ghost var anchored, marks := files, ops;
      SameJournalMeans(old(files), files);
      PruneArchives();
      if marked {
        MarkedStays(marks, ops, |old(ops)|, ArchiveMark, sequence);
      }
      SameTailMeans(anchored, files);
      StartLiveFile();
    }

    /** The cache of a ledger whose records are all archived. */
    method StartLiveFile()
      requires (forall r :: lineBytes(r) > 0) && OnDisk() && AtTip()
      requires storeBytes == files.counted && names == NamesOf(files.disk.archives)
      requires files.disk.live == [] && !files.disk.livePresent && files.disk.archives != []
      modifies this`fileFirst, this`fileBytes, this`retainedFrom
      ensures Valid() && Synced()
    {
      hide FileBytes;
      hide NamesOf;
      hide Run;
      hide Next;
      hide First;
      FirstName(files.disk.archives, names);
      JournalFacts(hmac, ops, files);
      EmptyFileBytes(lineBytes, files.disk.live);
      fileFirst := sequence + 1;
      fileBytes := 0;
      retainedFrom := if names[0].first > 1 then names[0].first else 1;
    }

    // -------------------------------------------------------------- refresh

    /** Takes a record read from a file's end as the tip if it authenticates. */
    method AdoptTip(record: Record) returns (ok: bool)
      requires IsTipRecord(hmac, files, record)
      modifies this`sequence, this`lastMAC
      ensures ok && AtTip()
    {
      ok := record.mac == hmac(record.Signed());
      if ok {
        sequence, lastMAC := record.sequence, record.mac;
      }
    }

    /** Where the live file and the retained window begin, from the archive names. */
    method RefreshBoundaries()
      requires names == NamesOf(files.disk.archives) && First(files.disk.archives) >= 1
      modifies this`fileFirst, this`retainedFrom
      ensures fileFirst == Next(files.disk.archives, 1) && retainedFrom == First(files.disk.archives)
    {
      fileFirst, retainedFrom := 1, 1;
      if |names| > 0 {
        fileFirst := names[|names| - 1].last + 1;
        retainedFrom := if names[0].first > 1 then names[0].first else 1;
      }
    }

    /** Re-reads the tip from the newest archive when there is no live record. */
    method RefreshFromArchives() returns (ok: bool)
      requires (forall r :: lineBytes(r) > 0) && OnDisk() && Cached() && files.disk.live == []
      modifies this`sequence, this`lastMAC, this`fileFirst, this`fileBytes, this`retainedFrom, this`faults
      ensures Cached() && (files.disk.livePresent ==> fileBytes == old(fileBytes) || ok)
      ensures ok ==> Valid() && Synced()
      ensures faults >= old(faults) && (ok || faults > old(faults))
    {
      hide StoreBytes;
      hide FileBytes;
      hide NamesOf;
      hide Next;
      hide First;
      hide Run;
      JournalFacts(hmac, ops, files);
      EmptyFileBytes(lineBytes, files.disk.live);
      sequence, lastMAC, fileFirst := 0, NoMac, 1;
      if |names| == 0 {
        fileBytes := 0;
        RefreshBoundaries();
        return true;
      }
      ok := Succeeds();
      if !ok {
        return;
      }
      var line := ReadNewestLine(files.disk.archives[|names| - 1].records);
      ok := AdoptTip(line.value);
      fileBytes := 0;
      RefreshBoundaries();
    }

    /** Re-reads the tip of a live file of `size` bytes, or from the archives if it holds no record. */
    method ReloadTip(size: nat) returns (ok: bool)
      requires (forall r :: lineBytes(r) > 0) && OnDisk() && Cached() && size == FileBytes(lineBytes, files.disk.live)
      requires files.disk.livePresent ==> size != fileBytes
      modifies this`sequence, this`lastMAC, this`fileFirst, this`fileBytes, this`retainedFrom, this`faults
      ensures Valid() && (ok ==> Synced())
      ensures faults >= old(faults) && (ok || faults > old(faults))
    {
      hide StoreBytes;
      hide FileBytes;
      hide NamesOf;
      hide Next;
      hide First;
      hide Run;
      JournalFacts(hmac, ops, files);
      ok := Succeeds();
      if !ok {
        return;
      }
      var line := ReadNewestLine(files.disk.live);
      if !files.disk.livePresent || line.None? {
        ok := RefreshFromArchives();
        return;
      }
      ok := AdoptTip(line.value);
      fileBytes := size;
      RefreshBoundaries();
    }

    /** Reconciles the cache with the files: nothing to do while file size and archive count are unchanged. */
    method Refresh() returns (ok: bool)
      requires Valid()
      modifies this`sequence, this`lastMAC, this`fileFirst, this`fileBytes, this`retainedFrom, this`names, this`faults
      ensures Valid() && (ok ==> Synced())
      ensures faults >= old(faults) && (ok || faults > old(faults))
    {
      hide StoreBytes;
      hide FileBytes;
      hide NamesOf;
      hide Next;
      hide First;
      hide Run;
      ok := Succeeds();
      if !ok {
        return;
      }
      var present, size := files.disk.livePresent, FileBytes(lineBytes, files.disk.live);
      if !present {
        sequence, lastMAC, fileBytes, fileFirst := 0, NoMac, 0, 1;
      }
      var previous := |names|;
      ok := Succeeds();
      if !ok {
        return;
      }
      names := NamesOf(files.disk.archives);
      if present && size == fileBytes && |names| == previous {
        return true;
      }
      ok := ReloadTip(size);
    }

    // -------------------------------------------------------------- append

    /** Opens the live file, creating it if need be. */
    method CreateLiveFile()
      requires Valid() && Synced()
      modifies this`files, this`ops
      ensures Valid() && Synced() && ops == old(ops) + [CreateLive]
      ensures files == old(files.(disk := files.disk.(livePresent := true)))
      ensures old(Covered(files)) ==> Covered(files)
    {
      hide StoreBytes;
      hide FileBytes;
      hide NamesOf;
      hide Covered;
      hide Next;
      hide First;
      hide Run;
      if Covered(files) {
        StepKeepsCovered(hmac, files, CreateLive);
      }
      Perform(CreateLive);
    }

    /** Makes a line durable; the cache does not know of it yet. */
    method WriteDurable(record: Record)
      requires Valid() && Synced() && Enabled(hmac, files, WriteRecord(record)) && files.disk.livePresent
      modifies this`files, this`ops
      ensures Valid() && ops == old(ops) + [WriteRecord(record)]
      ensures files == old(Step(files, WriteRecord(record)))
      ensures FileBytes(lineBytes, files.disk.live) == fileBytes + lineBytes(record)
      ensures fileFirst == Next(files.disk.archives, 1)
      ensures old(Covered(files)) && record.sequence % CHECKPOINT_INTERVAL != 0 ==> Covered(files)
    {
      hide StoreBytes;
      hide FileBytes;
      hide NamesOf;
      hide Covered;
      hide Next;
      hide First;
      hide Run;
      FileSnoc(lineBytes, files.disk.live, record);
      if Covered(files) && record.sequence % CHECKPOINT_INTERVAL != 0 {
        StepKeepsCovered(hmac, files, WriteRecord(record));
      }
      Perform(WriteRecord(record));
    }

    /** Appends one line to the live file; it may be durable although an error is reported. */
    method WriteLine(record: Record) returns (ok: bool)
      requires Valid() && Synced() && Enabled(hmac, files, WriteRecord(record))
      modifies this`faults, this`files, this`ops, this`fileBytes, this`sequence, this`lastMAC
      ensures Valid() && old(ops) <= ops
      ensures files.history == old(files.history) || files.history == old(files.history) + [record.mac]
      ensures ok ==> Synced()
      ensures ok ==> files == old(Step(files, WriteRecord(record))) && fileBytes == old(fileBytes) + lineBytes(record)
      ensures files.disk.archives == old(files.disk.archives)
      ensures ok && old(Covered(files)) && record.sequence % CHECKPOINT_INTERVAL != 0 ==> Covered(files)
      ensures faults >= old(faults) && (ok || faults > old(faults))
    {
      hide StoreBytes;
      hide FileBytes;
      hide NamesOf;
      hide Covered;
      hide Next;
      hide First;
      hide Run;
      ok := Succeeds();
      if !ok {
        return;
      }
      CreateLiveFile();
      ok := Succeeds();
      if !ok {
        return;
      }
      WriteDurable(record);
      ok := Succeeds();
      if !ok {
        return;
      }
      fileBytes := fileBytes + lineBytes(record);
      sequence, lastMAC := record.sequence, record.mac;
    }

    /** Extends the chain by one record, rotating a full live file first. */
    method AppendLocked(body: Event) returns (ok: bool)
      requires Valid() && Synced()
      modifies this
      ensures Valid() && old(ops) <= ops
      ensures var next := NextRecord(hmac, old(files), body);
        && (files.history == old(files.history) || files.history == old(files.history) + [next.mac])
        && (ok ==> Synced() && files.history == old(files.history) + [next.mac] && files.disk.live != []
                   && files.disk.live[|files.disk.live| - 1] == next)
      ensures checkpointFailures >= old(checkpointFailures)
      ensures ok && checkpointFailures == old(checkpointFailures) && old(Covered(files)) ==> Covered(files)
      ensures faults >= old(faults)
      ensures !ok ==> faults > old(faults) || lineBytes(NextRecord(hmac, old(files), body)) > MAX_RECORD_BYTES
      ensures ok ==> fileBytes <= rotateBytes || files.disk.live == [NextRecord(hmac, old(files), body)]
      ensures var next := NextRecord(hmac, old(files), body);
        && (lineBytes(next) > MAX_RECORD_BYTES ==> !ok && files == old(files))
        && (old(fileBytes) + lineBytes(next) <= rotateBytes ==>
              files.disk.archives == old(files.disk.archives) && (ok ==> Extended(old(files), files, next)))
        && (old(fileBytes) + lineBytes(next) > rotateBytes && old(files.disk.live) == [] && ok ==>
              Extended(old(files), files, next))
        && (old(fileBytes) + lineBytes(next) > rotateBytes && old(files.disk.live) != [] && ok ==>
              ExtendedAfterRotation(old(files), files, next))
      ensures var next := NextRecord(hmac, old(files), body);
        && old(fileBytes) + lineBytes(next) > rotateBytes && old(files.disk.live) != []
        && lineBytes(next) <= MAX_RECORD_BYTES && faults == old(faults) ==>
          |files.disk.archives| <= MAX_RETAINED_ARCHIVES && Marked(ops[|old(ops)|..], ArchiveMark, |old(files.history)|)
      ensures var next := NextRecord(hmac, old(files), body);
        ok && next.sequence % CHECKPOINT_INTERVAL == 0 && checkpointFailures == old(checkpointFailures) ==>
          Marked(ops[|old(ops)|..], TipMark, next.sequence)
    {
      hide Run;
      hide Covered;
      hide Marked;
      hide Pruned;
      hide Extended;
      hide ExtendedAfterRotation;
      hide RotatedFrom;
      hide Enabled;
      hide Step;
      hide FileBytes;
      hide StoreBytes;
      hide NamesOf;
      hide Next;
      hide First;
      var content := Content(sequence + 1, body, lastMAC);
      var record := Record(content.sequence, body, content.previous, hmac(content));
      var line := lineBytes(record);
      if line > MAX_RECORD_BYTES {
        return false;
      }
      ok := RotateIfFull(line);
      if !ok {
        return;
      }
      ghost var rotated, space := ops, files;
      NextMayBeWritten(hmac, files, record);
      ok := WriteRecordAndMark(record);
      if ok {
        ExtendedMeans(space, files, record);
        if old(fileBytes) + line > rotateBytes && old(files.disk.live) != [] {
          ExtendedRotated(old(files), space, files, record);
        }
      }
      if Marked(rotated[|old(ops)|..], ArchiveMark, |old(files.history)|) {
        MarkedStays(rotated, ops, |old(ops)|, ArchiveMark, |old(files.history)|);
      }
      if Marked(ops[|rotated|..], TipMark, record.sequence) {
        MarkedEarlier(ops, |old(ops)|, |rotated|, TipMark, record.sequence);
      }
    }

    /** Rotates exactly if the next line would take a live file with records beyond its bound. */
    method RotateIfFull(line: nat) returns (ok: bool)
      requires Valid() && Synced()
      modifies this`faults, this`witnessFailed, this`files, this`ops, this`storeBytes, this`checkpoints, this`status,
               this`checkpointFailures,
               this`names, this`fileFirst, this`fileBytes, this`retainedFrom
      ensures Valid() && Synced() && old(ops) <= ops
      ensures files.history == old(files.history)
      ensures old(fileBytes) + line <= rotateBytes || old(files.disk.live) == [] ==> files == old(files)
      ensures old(fileBytes) + line <= rotateBytes ==> ok && fileBytes == old(fileBytes)
      ensures !ok ==> files == old(files)
      ensures ok && old(fileBytes) + line > rotateBytes ==> files.disk.live == []
      ensures ok && old(fileBytes) + line > rotateBytes && old(files.disk.live) != [] ==> RotatedFrom(old(files), files)
      ensures checkpointFailures >= old(checkpointFailures)
      ensures checkpointFailures == old(checkpointFailures) && old(Covered(files)) ==> Covered(files)
      ensures faults >= old(faults) && (ok || faults > old(faults))
      ensures old(fileBytes) + line > rotateBytes && old(files.disk.live) != [] && faults == old(faults) ==>
        |files.disk.archives| <= MAX_RETAINED_ARCHIVES && Marked(ops[|old(ops)|..], ArchiveMark, |old(files.history)|)
    {
      hide Run;
      hide Covered;
      hide Marked;
      hide Pruned;
      hide FileBytes;
      hide StoreBytes;
      hide NamesOf;
      hide Next;
      hide First;
      if fileBytes + line <= rotateBytes {
        return true;
      }
      ok := Rotate();
    }

    /** Writes a record and, at every multiple of the interval, a tip checkpoint. */
    method WriteRecordAndMark(record: Record) returns (ok: bool)
      requires Valid() && Synced() && Enabled(hmac, files, WriteRecord(record))
      modifies this
      ensures Valid() && old(ops) <= ops
      ensures files.history == old(files.history) || files.history == old(files.history) + [record.mac]
      ensures ok ==> Synced() && files.history == old(files.history) + [record.mac]
      ensures files.disk.archives == old(files.disk.archives)
      ensures ok ==> Extended(old(files), files, record)
      ensures ok && record.sequence % CHECKPOINT_INTERVAL == 0 && checkpointFailures == old(checkpointFailures) ==>
        Marked(ops[|old(ops)|..], TipMark, record.sequence)
      ensures checkpointFailures >= old(checkpointFailures)
      ensures ok && checkpointFailures == old(checkpointFailures) && old(Covered(files)) ==> Covered(files)
      ensures faults >= old(faults) && (ok || faults > old(faults))
      ensures ok ==> fileBytes == old(fileBytes) + lineBytes(record)
    {
      hide FileBytes;
      hide NamesOf;
      hide StoreBytes;
      hide Next;
      hide First;
      hide Run;
      hide Covered;
      hide Marked;
      ok := WriteLine(record);
      if ok && sequence % CHECKPOINT_INTERVAL == 0 {
        ghost var written := ops;
        var marked := AppendCheckpoint(TipMark, 0, NoMac);
        if marked {
          MarkedEarlier(ops, |old(ops)|, |written|, TipMark, sequence);
        }
      }
    }

    /** The public append: refresh, then extend. */
    method Append(body: Event) returns (ok: bool)
      requires Valid()
      modifies this
      ensures Valid() && old(ops) <= ops
      ensures var next := NextRecord(hmac, old(files), body);
        && (files.history == old(files.history) || files.history == old(files.history) + [next.mac])
        && (ok ==> Synced() && files.history == old(files.history) + [next.mac] && files.disk.live != []
                   && files.disk.live[|files.disk.live| - 1] == next)
      ensures checkpointFailures >= old(checkpointFailures)
      ensures ok && checkpointFailures == old(checkpointFailures) && old(Covered(files)) ==> Covered(files)
      ensures faults >= old(faults)
      ensures !ok ==> faults > old(faults) || lineBytes(NextRecord(hmac, old(files), body)) > MAX_RECORD_BYTES
      ensures ok ==> fileBytes <= rotateBytes || files.disk.live == [NextRecord(hmac, old(files), body)]
      ensures var next := NextRecord(hmac, old(files), body);
        var fits := FileBytes(lineBytes, old(files.disk.live)) + lineBytes(next) <= rotateBytes;
        && (lineBytes(next) > MAX_RECORD_BYTES ==> !ok && files == old(files))
        && (fits ==> files.disk.archives == old(files.disk.archives) && (ok ==> Extended(old(files), files, next)))
        && (!fits && old(files.disk.live) == [] && ok ==> Extended(old(files), files, next))
        && (!fits && old(files.disk.live) != [] && ok ==> ExtendedAfterRotation(old(files), files, next))
      ensures var next := NextRecord(hmac, old(files), body);
        && FileBytes(lineBytes, old(files.disk.live)) + lineBytes(next) > rotateBytes && old(files.disk.live) != []
        && lineBytes(next) <= MAX_RECORD_BYTES && faults == old(faults) ==>
          |files.disk.archives| <= MAX_RETAINED_ARCHIVES && Marked(ops[|old(ops)|..], ArchiveMark, |old(files.history)|)
      ensures var next := NextRecord(hmac, old(files), body);
        ok && next.sequence % CHECKPOINT_INTERVAL == 0 && checkpointFailures == old(checkpointFailures) ==>
          Marked(ops[|old(ops)|..], TipMark, next.sequence)
    {
      hide Run;
      hide Covered;
      hide Marked;
      hide Pruned;
      hide Extended;
      hide ExtendedAfterRotation;
      hide FileBytes;
      ok := Refresh();
      if ok {
        ok := AppendLocked(body);
      }
    }

    // -------------------------------------------------------------- opening, verifying, paging

    /** Reads the checkpoint store; one beyond its bound is moved aside unread. */
    method LoadCheckpoints()
      requires OnDisk()
      modifies this`files, this`ops, this`checkpoints, this`storeBytes
      ensures OnDisk() && old(ops) <= ops && SameJournal(old(files), files)
      ensures storeBytes == files.counted && checkpoints == Loaded(files.disk.store)
      ensures Anchored(files.disk) == old(Anchored(files.disk))
    {
      hide Run;
      if StoreBytes(files.disk.store) > MAX_CHECKPOINT_FILE_BYTES {
        Perform(QuarantineStore);
        checkpoints, storeBytes := [], 0;
        return;
      }
      Perform(LoadStore);
      checkpoints, storeBytes := Loaded(files.disk.store), StoreBytes(files.disk.store);
    }

    /** Verifies the files against the loaded checkpoints and caches the verified tip. */
    method VerifyLocked() returns (ok: bool)
      requires OnDisk() && names == NamesOf(files.disk.archives) && checkpoints == Loaded(files.disk.store)
      modifies this`sequence, this`lastMAC, this`fileFirst, this`fileBytes, this`retainedFrom, this`faults
      ensures ok ==> Anchored(files.disk) && Synced() && retainedFrom == First(files.disk.archives)
      ensures !ok ==> sequence == old(sequence) && lastMAC == old(lastMAC) && fileBytes == old(fileBytes)
                      && fileFirst == old(fileFirst) && retainedFrom == old(retainedFrom)
      ensures faults >= old(faults) && (ok || !Anchored(files.disk) || faults > old(faults))
    {
      hide Run;
      OpenFacts(hmac, ops, files);
      ok := Succeeds();
      if !ok {
        return;
      }
      var tip := VerifyFiles(hmac, files.disk.archives, files.disk.live, checkpoints);
      if tip.None? {
        return false;
      }
      JournalFacts(hmac, ops, files);
      sequence, lastMAC := tip.value.sequence, tip.value.mac;
      fileBytes := FileBytes(lineBytes, files.disk.live);
      RefreshBoundaries();
      return true;
    }

    /** Compares the witness this ledger published with the verified chain; it is never rejected. */
    method CheckWitness() returns (ok: bool)
      requires OnDisk() && AtTip() && checkpoints == Loaded(files.disk.store)
      modifies this`faults, this`status
      ensures ok
      ensures faults >= old(faults)
      ensures StatusTrue()
      ensures witnessConfigured && files.disk.witnessed == Some(Tip(sequence, lastMAC)) && faults == old(faults) ==>
        StatusConfirms()
    {
      hide Run;
      OwnWitnessTolerated(hmac, ops, files);
      var reachable := Succeeds();
      var view := if !witnessConfigured then Unconfigured
                  else if !reachable then Unreachable
                  else if files.disk.witnessed.None? then Missing
                  else Signed(files.disk.witnessed.value);
      ok, status := VerifyWitness(view, Tip(sequence, lastMAC), checkpoints);
    }

    /** The public verification: reloads the checkpoints, verifies the files and compares the witness. */
    method Verify() returns (ok: bool)
      requires Valid()
      modifies this
      ensures Valid() && old(ops) <= ops && SameJournal(old(files), files) && faults >= old(faults)
      ensures ok ==> Synced() && old(Anchored(files.disk))
      ensures old(Anchored(files.disk)) ==> ok || faults > old(faults)
      ensures ok ==> StatusTrue()
      ensures ok && witnessConfigured && files.disk.witnessed == Some(Tip(sequence, lastMAC)) && faults == old(faults)
        ==> StatusConfirms()
    {
      hide Run;
      hide StoreBytes;
      hide FileBytes;
      hide NamesOf;
      hide Anchored;
      LoadCheckpoints();
      ok := VerifyLocked();
      if ok {
        ok := CheckWitness();
      }
    }

    /** Leaves a checkpoint, and if it can be reached a witness, at the tip. */
    method SettleTip() returns (ok: bool)
      requires OnDisk() && storeBytes == files.counted && checkpoints == Loaded(files.disk.store)
      requires AtTip()
      modifies this`faults, this`witnessFailed, this`files, this`ops, this`storeBytes, this`checkpoints, this`status,
               this`checkpointFailures
      ensures OnDisk() && old(ops) <= ops && storeBytes == files.counted
      ensures SameJournal(old(files), files)
      ensures checkpointFailures == old(checkpointFailures) + if ok then 0 else 1
      ensures ok ==> Covered(files)
      ensures faults >= old(faults) && (ok || faults > old(faults))
      ensures sequence > 0 && !old(TipMarked()) && ok ==> Marked(ops[|old(ops)|..], TipMark, sequence)
      ensures (sequence == 0 || old(TipMarked())) && old(StatusConfirms()) ==> files == old(files)
      ensures faults == old(faults) && !old(witnessFailed) && old(StatusTrue()) ==> Witnessed()
    {
      hide Run;
      hide Marked;
      ok := EnsureTipCheckpoint();
      ghost var settled := ops;
      if ok && !(status.reachable && status.verified && status.sequence == sequence) {
        UpdateWitness();
        if sequence > 0 && !old(TipMarked()) {
          MarkedStays(settled, ops, |old(ops)|, TipMark, sequence);
        }
      }
    }

    ghost predicate StatusConfirms() reads this {
      status.reachable && status.verified && status.sequence == sequence
    }

    /** A status that confirms the tip is right about the witness. */
    ghost predicate StatusTrue() reads this {
      status.verified && status.sequence == sequence ==> files.disk.witnessed == Some(Tip(sequence, lastMAC))
    }

    /**
     Opens a stopped ledger. Without a fault it succeeds exactly when the files are
     anchored; it never loses or adds a record, and leaves a checkpoint at the tip.
     */
    method Open() returns (ok: bool)
      requires (forall r :: lineBytes(r) > 0) && OnDisk()
      modifies this
      ensures OnDisk() && old(ops) <= ops && SameJournal(old(files), files)
      ensures ok ==> Valid() && Synced() && Covered(files) && old(Anchored(files.disk))
      ensures faults >= old(faults) && (old(Anchored(files.disk)) ==> ok || faults > old(faults))
      ensures ok && faults == old(faults) && !old(witnessFailed) ==> Witnessed()
    {
      hide Marked;
      hide FileBytes;
      hide NamesOf;
      hide StoreBytes;
      hide Next;
      hide First;
      hide Run;
      hide Covered;
      hide Anchored;
      LoadCheckpoints();
      names := NamesOf(files.disk.archives);
      ok := VerifyLocked();
      if ok {
        ok := CheckWitness();
        ok := SettleTip();
      }
    }

    /** A page of the retained window, newest first, with the window's size. */
    method Page(limit: int, offset: int) returns (page: Option<(seq<Record>, nat)>)
      requires Valid()
      modifies this`sequence, this`lastMAC, this`fileFirst, this`fileBytes, this`retainedFrom, this`names, this`faults
      ensures Valid() && faults >= old(faults)
      ensures InRange(limit, offset, |Records(files.disk)|) ==> page.Some? || faults > old(faults)
      ensures page.Some? ==> InRange(limit, offset, |Records(files.disk)|)
      ensures page.Some? ==> page.value == (PageOf(files.disk, limit, offset), |Records(files.disk)|)
    {
      hide StoreBytes;
      hide FileBytes;
      hide NamesOf;
      hide Next;
      hide First;
      hide FilesNewestFirst;
      hide NewestFirst;
      hide Flatten;
      hide Run;
      if limit < 1 || limit > MAX_PAGE_LIMIT || offset < 0 {
        return None;
      }
      var ok := Refresh();
      if !ok {
        return None;
      }
      RetainedWindow(hmac, ops, files);
      var total := if sequence == 0 || sequence < retainedFrom then 0 else sequence - retainedFrom + 1;
      if offset >= total {
        return Some(([], total));
      }
      if offset > MAX_PAGE_OFFSET {
        return None;
      }
      ok := Succeeds();
      if !ok {
        return None;
      }
      var items := NewestRecords(FilesNewestFirst(files.disk), limit, offset);
      return Some((items, total));
    }
  }

  /** The page requests that are served. */
  predicate InRange(limit: int, offset: int, total: nat) {
    1 <= limit <= MAX_PAGE_LIMIT && 0 <= offset && (offset <= MAX_PAGE_OFFSET || total <= offset)
  }

  lemma OpenFacts(h: Hmac, ops: seq<Op>, w: World)
    requires Run(h, ops) == Some(w)
    ensures NamesAllowed(w.disk.archives) && First(w.disk.archives) >= 1
    ensures Reopens(h, w.disk) <==> Anchored(w.disk)
    ensures Reopens(h, w.disk) ==> TipOf(w.disk.archives, w.disk.live, Loaded(w.disk.store)) == w.Tip()
  {
    RunInvariant(h, ops);
    ReopensIffAnchored(h, w);
  }

  lemma OwnWitnessTolerated(h: Hmac, ops: seq<Op>, w: World)
    requires Run(h, ops) == Some(w)
    ensures w.disk.witnessed.Some? ==> Tolerated(Signed(w.disk.witnessed.value), w.Tip(), Loaded(w.disk.store))
  {
    hide ChainInvariant;
    hide StoreTruthful;
    hide Tolerated;
    hide Loaded;
    RunInvariant(h, ops);
    hide Run;
    if w.disk.witnessed.Some? {
      TruthfulWitnessTolerated(w, w.disk.witnessed.value);
    }
  }

  lemma RetainedWindow(h: Hmac, ops: seq<Op>, w: World)
    requires Run(h, ops) == Some(w)
    ensures First(w.disk.archives) + |Records(w.disk)| == |w.history| + 1
    ensures First(w.disk.archives) >= 1
    ensures NewestFirst(FilesNewestFirst(w.disk)) == Reversed(Records(w.disk))
  {
    RunInvariant(h, ops);
    FilesCoverChain(w.disk);
  }
}
