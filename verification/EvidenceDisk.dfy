/**
 The durable state of the ledger and every single file operation the code
 performs on it. A stop can fall between any two operations, so a theorem about
 every sequence of enabled operations is a theorem about every crash.
 */
module EvidenceDisk {
  import opened Wrappers
  import opened EvidenceChain

  const MAX_RETAINED_ARCHIVES := 4
  /** MAC, key fingerprint and signature alone fill 64 + 64 + 128 characters of a checkpoint line. */
  const MIN_CHECKPOINT_BYTES := 257
  /** The longest line of a record or a checkpoint. */
  const MAX_RECORD_BYTES := 131072

  datatype Disk = Disk(
    archives: seq<Archive>, livePresent: bool, live: seq<Record>,
    store: seq<Checkpoint>, witnessed: Option<Tip>)

  const EMPTY_DISK := Disk([], false, [], [], None)

  function Records(d: Disk): seq<Record> {
    Flatten(d.archives) + d.live
  }

  function First(archives: seq<Archive>): nat {
    if archives == [] then 1 else archives[0].first
  }

  function StoreBytes(store: seq<Checkpoint>): nat {
    if store == [] then 0 else StoreBytes(store[..|store| - 1]) + store[|store| - 1].bytes
  }

  /** What reading the checkpoint store yields: nothing from a quarantined store, else the newest entries. */
  function Loaded(store: seq<Checkpoint>): seq<Checkpoint> {
    if StoreBytes(store) > MAX_CHECKPOINT_FILE_BYTES then []
    else if |store| > 2 * MAX_CHECKPOINTS_IN_MEMORY then []
    else if exists c :: c in store && !c.signed then []
    else Recent(store)
  }

  /** The entries kept in memory. */
  function Recent(store: seq<Checkpoint>): seq<Checkpoint> {
    if |store| > MAX_CHECKPOINTS_IN_MEMORY then store[|store| - MAX_CHECKPOINTS_IN_MEMORY..] else store
  }

  ghost predicate Reopens(h: Hmac, d: Disk) {
    Accepted(h, d.archives, d.live, Loaded(d.store))
  }

  // ---------------------------------------------------------------- file operations

  datatype Op =
    | CreateLive
    | WriteRecord(record: Record)
    | ArchiveLive
    | RotateStore(line: nat)
    | QuarantineStore
    | LoadStore
    | AppendStore(checkpoint: Checkpoint, acknowledged: bool)
    | RemoveOldest
    | PublishWitness

  /**
   A disk, the MACs of all records ever written, pruned ones included, and the bytes
   of the checkpoint store that the running ledger has counted. A line that is
   durable although its write was reported as failed is not counted.
   */
  datatype World = World(disk: Disk, history: seq<Mac>, counted: nat) {
    function Tip(): Tip {
      EvidenceChain.Tip(|history|, if history == [] then NoMac else history[|history| - 1])
    }
  }

  /** The record that extends the tip. */
  function NextRecord(h: Hmac, w: World, body: Event): Record {
    var content := Content(|w.history| + 1, body, w.Tip().mac);
    Record(content.sequence, body, content.previous, h(content))
  }

  function MacBefore(history: seq<Mac>, first: nat): Mac
    requires 1 <= first <= |history| + 1
  {
    if first == 1 then NoMac else history[first - 2]
  }

  /** `c` is the retention anchor written before the oldest of `archives` is removed. */
  predicate AnchorsSecond(c: Checkpoint, archives: seq<Archive>) {
    && |archives| >= 2
    && c.kind == RetentionMark
    && c.retainedFrom == archives[1].first
  }

  /** When the code performs each operation. */
  predicate Enabled(h: Hmac, w: World, op: Op) {
    var d := w.disk;
    match op
    case CreateLive => true
    case WriteRecord(r) =>
      r.sequence == |w.history| + 1 && r.previous == w.Tip().mac && r.mac == h(r.Signed())
    case ArchiveLive => d.live != []
    case RotateStore(line) =>
      MIN_CHECKPOINT_BYTES <= line <= MAX_RECORD_BYTES && w.counted + line > MAX_CHECKPOINT_FILE_BYTES
    case QuarantineStore => StoreBytes(d.store) > MAX_CHECKPOINT_FILE_BYTES
    case LoadStore => StoreBytes(d.store) <= MAX_CHECKPOINT_FILE_BYTES
    case AppendStore(c, _) =>
      && c.signed && MIN_CHECKPOINT_BYTES <= c.bytes <= MAX_RECORD_BYTES
      && w.counted + c.bytes <= MAX_CHECKPOINT_FILE_BYTES
      && |w.history| > 0 && c.sequence == |w.history| && c.lastMAC == w.Tip().mac
      && (c.kind == RetentionMark ==>
            && |d.archives| > MAX_RETAINED_ARCHIVES
            && c.retainedFrom == d.archives[1].first
            && d.archives[1].records != []
            && c.retainedPrevious == d.archives[1].records[0].previous)
    case RemoveOldest =>
      && |d.archives| > MAX_RETAINED_ARCHIVES
      && d.store != [] && AnchorsSecond(d.store[|d.store| - 1], d.archives)
    case PublishWitness => |w.history| > 0
  }

  function Step(w: World, op: Op): World {
    var d := w.disk;
    match op
    case CreateLive => w.(disk := d.(livePresent := true))
    case WriteRecord(r) => w.(disk := d.(livePresent := true, live := d.live + [r]), history := w.history + [r.mac])
    case ArchiveLive =>
      w.(disk := d.(
        archives := d.archives + [Archive(Next(d.archives, 1), |w.history|, d.live)],
        livePresent := false, live := []))
    case RotateStore(_) => w.(disk := d.(store := []), counted := 0)
    case QuarantineStore => w.(disk := d.(store := []), counted := 0)
    case LoadStore => w.(counted := StoreBytes(d.store))
    case AppendStore(c, acknowledged) =>
      w.(disk := d.(store := d.store + [c]), counted := w.counted + if acknowledged then c.bytes else 0)
    case RemoveOldest => w.(disk := d.(archives := if d.archives == [] then [] else d.archives[1..]))
    case PublishWitness => w.(disk := d.(witnessed := Some(w.Tip())))
  }

  /** The world after a sequence of operations from an empty directory, if each was enabled in turn. */
  function Run(h: Hmac, ops: seq<Op>): Option<World> {
    if ops == [] then Some(World(EMPTY_DISK, [], 0))
    else
      match Run(h, ops[..|ops| - 1])
      case None => None
      case Some(w) => if Enabled(h, w, ops[|ops| - 1]) then Some(Step(w, ops[|ops| - 1])) else None
  }

  // ---------------------------------------------------------------- what every operation keeps

  /** A stored checkpoint names the MAC the ledger really had at its sequence. */
  predicate Truthful(c: Checkpoint, history: seq<Mac>) {
    && c.signed && MIN_CHECKPOINT_BYTES <= c.bytes
    && 1 <= c.sequence <= |history| && c.lastMAC == history[c.sequence - 1]
    && (c.kind == RetentionMark ==>
          2 <= c.retainedFrom <= c.sequence && c.retainedPrevious == history[c.retainedFrom - 2])
  }

  /** `records` are the authentic records of the history from `first` on. */
  ghost predicate Tracks(h: Hmac, records: seq<Record>, first: nat, history: seq<Mac>) {
    && 1 <= first && first + |records| == |history| + 1
    && Linked(h, records, first, MacBefore(history, first))
    && forall i {:trigger records[i].mac} :: 0 <= i < |records| ==> records[i].mac == history[first - 1 + i]
  }

  /** File names and contents fit together. */
  ghost predicate Shaped(d: Disk) {
    && NamesAllowed(d.archives)
    && Contiguous(d.archives, First(d.archives))
    && (!d.livePresent ==> d.live == [])
  }

  ghost predicate ChainInvariant(h: Hmac, w: World) {
    Shaped(w.disk) && Tracks(h, Records(w.disk), First(w.disk.archives), w.history)
  }

  /** Every checkpoint is truthful and the last entry is the newest. */
  ghost predicate StoreTruthful(store: seq<Checkpoint>, history: seq<Mac>) {
    && (forall c :: c in store ==> Truthful(c, history))
    && (forall c :: c in store ==> c.sequence <= store[|store| - 1].sequence)
  }

  predicate WitnessTruthful(tip: Option<Tip>, history: seq<Mac>) {
    tip.Some? ==> 1 <= tip.value.sequence <= |history| && tip.value.mac == history[tip.value.sequence - 1]
  }

  ghost predicate StoreInvariant(w: World) {
    StoreTruthful(w.disk.store, w.history) && WitnessTruthful(w.disk.witnessed, w.history)
  }

  ghost predicate Invariant(h: Hmac, w: World) {
    ChainInvariant(h, w) && StoreInvariant(w)
  }

  /** The condition on the files under which a pruned ledger can be reopened. */
  predicate Anchored(d: Disk) {
    || First(d.archives) == 1
    || NewestAnchor(Loaded(d.store), First(d.archives)).Some?
  }

  lemma TracksSnoc(h: Hmac, records: seq<Record>, first: nat, history: seq<Mac>, r: Record)
    requires Tracks(h, records, first, history)
    requires r.sequence == |history| + 1 && r.mac == h(r.Signed())
    requires r.previous == if history == [] then NoMac else history[|history| - 1]
    ensures Tracks(h, records + [r], first, history + [r.mac])
  {
    LinkedConcat(h, records, [r], first, MacBefore(history, first));
    assert LastMac(records, MacBefore(history, first)) == r.previous;
  }

  lemma TracksDrop(h: Hmac, a: seq<Record>, b: seq<Record>, first: nat, history: seq<Mac>)
    requires Tracks(h, a + b, first, history)
    ensures Tracks(h, b, first + |a|, history)
  {
    var all := a + b;
    LinkedConcat(h, a, b, first, MacBefore(history, first));
    if a != [] {
      assert a[|a| - 1] == all[|a| - 1];
      assert all[|a| - 1].mac == history[first - 1 + |a| - 1];
    }
    forall i | 0 <= i < |b|
      ensures b[i].mac == history[first + |a| - 1 + i]
    {
      assert all[|a| + i] == b[i];
      assert all[|a| + i].mac == history[first - 1 + (|a| + i)];
    }
  }

  lemma ArchiveContiguous(archives: seq<Archive>, first: nat, a: Archive)
    requires Contiguous(archives, first) && a.first == Next(archives, first) && a.last + 1 == a.first + |a.records|
    ensures Contiguous(archives + [a], first)
  {
  }

  lemma ArchiveRecords(archives: seq<Archive>, a: Archive)
    ensures Flatten(archives + [a]) == Flatten(archives) + a.records
  {
    assert (archives + [a])[..|archives|] == archives;
  }

  lemma ArchiveShape(d: Disk, a: Archive)
    requires Shaped(d) && d.live != [] && a.records == d.live && a.first == Next(d.archives, 1)
    requires First(d.archives) >= 1 && a.last + 1 == First(d.archives) + |Records(d)|
    ensures var d' := d.(archives := d.archives + [a], livePresent := false, live := []);
      Shaped(d') && Records(d') == Records(d) && First(d'.archives) == First(d.archives)
  {
    hide Contiguous;
    hide Flatten;
    ContiguousLength(d.archives, First(d.archives));
    ArchiveContiguous(d.archives, First(d.archives), a);
    ArchiveRecords(d.archives, a);
  }

  lemma PruneContiguous(archives: seq<Archive>, first: nat)
    requires Contiguous(archives, first) && |archives| >= 2
    ensures Contiguous(archives[1..], archives[1].first)
    ensures archives[1].first == first + |archives[0].records|
  {
    var rest := archives[1..];
    assert archives[0].last + 1 == archives[0].first + |archives[0].records|;
    forall i | 0 < i < |rest| ensures rest[i].first == rest[i - 1].last + 1 {
      assert archives[i + 1].first == archives[i].last + 1;
    }
    forall i | 0 <= i < |rest| ensures rest[i].last + 1 == rest[i].first + |rest[i].records| {
      assert archives[i + 1].last + 1 == archives[i + 1].first + |archives[i + 1].records|;
    }
  }

  lemma PruneRecords(archives: seq<Archive>)
    requires archives != []
    ensures Flatten(archives) == archives[0].records + Flatten(archives[1..])
  {
    var oldest := archives[0];
    assert archives == [oldest] + archives[1..];
    FlattenConcat([oldest], archives[1..]);
    assert [oldest][..0] == [] && Flatten([oldest]) == oldest.records;
  }

  lemma PruneShape(d: Disk)
    requires Shaped(d) && |d.archives| >= 2
    ensures var d' := d.(archives := d.archives[1..]);
      && Shaped(d')
      && Records(d) == d.archives[0].records + Records(d')
      && First(d'.archives) == First(d.archives) + |d.archives[0].records|
  {
    PruneContiguous(d.archives, First(d.archives));
    PruneRecords(d.archives);
  }

  lemma WriteKeepsChain(h: Hmac, w: World, r: Record)
    requires ChainInvariant(h, w) && Enabled(h, w, WriteRecord(r))
    ensures ChainInvariant(h, Step(w, WriteRecord(r)))
  {
    var d := w.disk;
    assert Flatten(d.archives) + (d.live + [r]) == Flatten(d.archives) + d.live + [r];
    TracksSnoc(h, Records(d), First(d.archives), w.history, r);
  }

  lemma ArchiveKeepsChain(h: Hmac, w: World)
    requires ChainInvariant(h, w) && Enabled(h, w, ArchiveLive)
    ensures ChainInvariant(h, Step(w, ArchiveLive))
  {
    ArchiveShape(w.disk, Archive(Next(w.disk.archives, 1), |w.history|, w.disk.live));
  }

  lemma PruneTracks(h: Hmac, oldest: seq<Record>, rest: seq<Record>, all: seq<Record>,
                    first: nat, first': nat, history: seq<Mac>)
    requires Tracks(h, all, first, history) && all == oldest + rest && first' == first + |oldest|
    ensures Tracks(h, rest, first', history)
  {
    TracksDrop(h, oldest, rest, first, history);
  }

  lemma PruneKeepsChain(h: Hmac, w: World)
    requires ChainInvariant(h, w) && Enabled(h, w, RemoveOldest)
    ensures ChainInvariant(h, Step(w, RemoveOldest))
  {
    var d, d' := w.disk, w.disk.(archives := w.disk.archives[1..]);
    assert Step(w, RemoveOldest) == World(d', w.history, w.counted);
    PruneShape(d);
    PruneTracks(h, d.archives[0].records, Records(d'), Records(d), First(d.archives), First(d'.archives), w.history);
  }

  lemma StepKeepsChain(h: Hmac, w: World, op: Op)
    requires ChainInvariant(h, w) && Enabled(h, w, op)
    ensures ChainInvariant(h, Step(w, op))
  {
    match op
    case WriteRecord(r) => WriteKeepsChain(h, w, r);
    case ArchiveLive => ArchiveKeepsChain(h, w);
    case RemoveOldest => PruneKeepsChain(h, w);
    case _ =>
  }

  lemma PrefixContiguous(archives: seq<Archive>, first: nat, i: nat)
    requires Contiguous(archives, first) && i < |archives|
    ensures Contiguous(archives[..i], first) && Next(archives[..i], first) == archives[i].first
  {
    assert i > 0 ==> archives[i].first == archives[i - 1].last + 1;
  }

  lemma ArchiveInside(archives: seq<Archive>, first: nat, i: nat)
    requires Contiguous(archives, first) && i < |archives| && archives[i].records != []
    ensures var k := archives[i].first - first;
      0 <= k < |Flatten(archives)| && Flatten(archives)[k] == archives[i].records[0]
  {
    hide *;
    PrefixContiguous(archives, first, i);
    var before, after := Flatten(archives[..i]), Flatten(archives[i + 1..]);
    ContiguousLength(archives[..i], first);
    FlattenPrefix(archives, i);
    assert archives == archives[..i + 1] + archives[i + 1..];
    FlattenConcat(archives[..i + 1], archives[i + 1..]);
    assert Flatten(archives) == before + archives[i].records + after;
  }

  lemma TracksAt(h: Hmac, records: seq<Record>, first: nat, history: seq<Mac>, k: nat)
    requires Tracks(h, records, first, history) && k < |records|
    ensures first + k <= |history|
    ensures records[k].sequence == first + k && records[k].mac == history[first - 1 + k]
    ensures records[k].mac == h(records[k].Signed())
  {
  }

  lemma TracksPrevious(h: Hmac, records: seq<Record>, first: nat, history: seq<Mac>, k: nat)
    requires Tracks(h, records, first, history) && k < |records|
    ensures first + k <= |history| && records[k].previous == MacBefore(history, first + k)
  {
    if k > 0 {
      assert records[k].previous == records[k - 1].mac;
    }
  }

  lemma InsidePrevious(h: Hmac, archived: seq<Record>, live: seq<Record>, first: nat, history: seq<Mac>, a: Archive)
    requires Tracks(h, archived + live, first, history)
    requires first <= a.first < first + |archived| && a.records != []
    requires archived[a.first - first] == a.records[0]
    ensures a.first <= |history| && a.records[0].previous == MacBefore(history, a.first)
  {
    TracksPrevious(h, archived + live, first, history, a.first - first);
  }

  lemma ArchiveNonempty(archives: seq<Archive>, first: nat, i: nat)
    requires NamesAllowed(archives) && Contiguous(archives, first) && i < |archives|
    ensures archives[i].records != [] && 1 <= archives[i].first
    ensures i > 0 ==> 2 <= archives[i].first
  {
    assert archives[i] in archives && archives[i].last + 1 == archives[i].first + |archives[i].records|;
    if i > 0 {
      assert archives[i - 1] in archives && archives[i].first == archives[i - 1].last + 1;
    }
  }

  /** The predecessor MAC of any retained archive is the history's MAC before its first sequence. */
  lemma ArchivePredecessor(h: Hmac, w: World, i: nat)
    requires ChainInvariant(h, w) && i < |w.disk.archives|
    ensures var a := w.disk.archives[i];
      && a.records != []
      && 1 <= a.first <= |w.history| && (i > 0 ==> 2 <= a.first)
      && a.records[0].previous == MacBefore(w.history, a.first)
  {
    hide Tracks;
    hide Contiguous;
    ArchiveNonempty(w.disk.archives, First(w.disk.archives), i);
    ArchiveInside(w.disk.archives, First(w.disk.archives), i);
    InsidePrevious(h, Flatten(w.disk.archives), w.disk.live, First(w.disk.archives), w.history, w.disk.archives[i]);
  }

  lemma AppendedIsTruthful(h: Hmac, w: World, c: Checkpoint, acknowledged: bool)
    requires ChainInvariant(h, w) && Enabled(h, w, AppendStore(c, acknowledged))
    ensures Truthful(c, w.history)
  {
    hide ChainInvariant;
    if c.kind == RetentionMark {
      ArchivePredecessor(h, w, 1);
    }
  }

  lemma StoreGrows(store: seq<Checkpoint>, history: seq<Mac>, mac: Mac)
    requires StoreTruthful(store, history)
    ensures StoreTruthful(store, history + [mac])
  {
    forall c | c in store ensures Truthful(c, history + [mac]) {
      assert Truthful(c, history);
    }
  }

  lemma StoreAppends(store: seq<Checkpoint>, history: seq<Mac>, c: Checkpoint)
    requires StoreTruthful(store, history) && Truthful(c, history) && c.sequence == |history|
    ensures StoreTruthful(store + [c], history)
  {
    forall b | b in store ensures b.sequence <= c.sequence {
      assert Truthful(b, history);
    }
  }

  lemma StepKeepsStore(h: Hmac, w: World, op: Op)
    requires Invariant(h, w) && Enabled(h, w, op)
    ensures StoreInvariant(Step(w, op))
  {
    hide ChainInvariant;
    hide Truthful;
    match op
    case WriteRecord(r) =>
      StoreGrows(w.disk.store, w.history, r.mac);
    case AppendStore(c, acknowledged) =>
      AppendedIsTruthful(h, w, c, acknowledged);
      StoreAppends(w.disk.store, w.history, c);
    case _ =>
  }

  /** In every run, at every point, the files satisfy the invariant. */
  lemma {:induction false} RunInvariant(h: Hmac, ops: seq<Op>)
    requires Run(h, ops).Some?
    ensures Invariant(h, Run(h, ops).value)
  {
    if ops == [] {
    } else {
      var w := Run(h, ops[..|ops| - 1]).value;
      RunInvariant(h, ops[..|ops| - 1]);
      StepKeepsChain(h, w, ops[|ops| - 1]);
      StepKeepsStore(h, w, ops[|ops| - 1]);
    }
  }

  lemma {:induction false} RunPrefix(h: Hmac, ops: seq<Op>, n: nat)
    requires Run(h, ops).Some? && n <= |ops|
    ensures Run(h, ops[..n]).Some?
    decreases |ops|
  {
    if n < |ops| {
      RunPrefix(h, ops[..|ops| - 1], n);
      assert ops[..|ops| - 1][..n] == ops[..n];
    } else {
      assert ops[..n] == ops;
    }
  }

  lemma RunSnoc(h: Hmac, ops: seq<Op>, op: Op)
    requires Run(h, ops).Some? && Enabled(h, Run(h, ops).value, op)
    ensures Run(h, ops + [op]) == Some(Step(Run(h, ops).value, op))
  {
    assert (ops + [op])[..|ops|] == ops;
  }

  // ---------------------------------------------------------------- reopening

  lemma StoreSnoc(store: seq<Checkpoint>, c: Checkpoint)
    ensures StoreBytes(store + [c]) == StoreBytes(store) + c.bytes
  {
    assert (store + [c])[..|store|] == store;
  }

  lemma {:induction false} StoreCount(store: seq<Checkpoint>)
    requires forall c :: c in store ==> MIN_CHECKPOINT_BYTES <= c.bytes
    ensures MIN_CHECKPOINT_BYTES * |store| <= StoreBytes(store)
  {
    if store != [] {
      StoreCount(store[..|store| - 1]);
    }
  }

  /** What is loaded was written by the ledger; a store within its bound loads, but for the oldest entries. */
  lemma LoadedIsNewest(w: World)
    requires StoreInvariant(w)
    ensures forall c :: c in Loaded(w.disk.store) ==> c in w.disk.store && Truthful(c, w.history)
    ensures StoreBytes(w.disk.store) <= MAX_CHECKPOINT_FILE_BYTES ==> Loaded(w.disk.store) == Recent(w.disk.store)
    ensures StoreBytes(w.disk.store) > MAX_CHECKPOINT_FILE_BYTES ==> Loaded(w.disk.store) == []
  {
    StoreCount(w.disk.store);
  }

  lemma TruthfulNewest(checkpoints: seq<Checkpoint>, history: seq<Mac>, sequence: nat)
    requires forall c :: c in checkpoints ==> Truthful(c, history)
    ensures NewestMac(checkpoints, sequence).Some? ==>
      1 <= sequence <= |history| && NewestMac(checkpoints, sequence).value == history[sequence - 1]
  {
    NewestMacFound(checkpoints, sequence);
  }

  lemma TruthfulCheckpointsAgree(h: Hmac, w: World, checkpoints: seq<Checkpoint>)
    requires ChainInvariant(h, w)
    requires forall c :: c in checkpoints ==> Truthful(c, w.history)
    ensures CheckpointsAgree(Records(w.disk), First(w.disk.archives), checkpoints)
  {
    forall c | c in checkpoints
      ensures First(w.disk.archives) <= c.sequence ==>
        c.lastMAC == Records(w.disk)[c.sequence - First(w.disk.archives)].mac
      ensures NewestMac(checkpoints, c.sequence) == Some(c.lastMAC)
    {
      NewestMacFound(checkpoints, c.sequence);
    }
  }

  lemma StartIffAnchored(h: Hmac, w: World, checkpoints: seq<Checkpoint>)
    requires ChainInvariant(h, w)
    requires forall c :: c in checkpoints ==> Truthful(c, w.history)
    ensures var first := First(w.disk.archives);
      RetentionStart(w.disk.archives, checkpoints) ==
        if first == 1 || NewestAnchor(checkpoints, first).Some? then Some(Start(first, MacBefore(w.history, first)))
        else None
  {
    hide Tracks;
    hide Contiguous;
    hide NewestAnchor;
    var archives := w.disk.archives;
    NewestAnchorFound(checkpoints, First(archives));
    if archives != [] {
      ArchivePredecessor(h, w, 0);
    }
  }

  lemma TracksTip(h: Hmac, records: seq<Record>, first: nat, history: seq<Mac>)
    requires Tracks(h, records, first, history)
    ensures first + |records| - 1 == |history|
    ensures LastMac(records, MacBefore(history, first)) == if history == [] then NoMac else history[|history| - 1]
  {
  }

  /** Truthful checkpoints accept a chain exactly when it starts at genesis or at one of their anchors. */
  lemma TruthfulAccepted(h: Hmac, w: World, checkpoints: seq<Checkpoint>)
    requires ChainInvariant(h, w)
    requires forall c :: c in checkpoints ==> Truthful(c, w.history)
    ensures Accepted(h, w.disk.archives, w.disk.live, checkpoints)
       <==> First(w.disk.archives) == 1 || NewestAnchor(checkpoints, First(w.disk.archives)).Some?
    ensures Accepted(h, w.disk.archives, w.disk.live, checkpoints) ==>
      && RetentionStart(w.disk.archives, checkpoints).value.first == First(w.disk.archives)
      && TipOf(w.disk.archives, w.disk.live, checkpoints) == w.Tip()
  {
    hide Linked;
    hide Contiguous;
    hide CheckpointsAgree;
    hide Truthful;
    hide Flatten;
    hide NewestAnchor;
    hide RetentionStart;
    TruthfulCheckpointsAgree(h, w, checkpoints);
    StartIffAnchored(h, w, checkpoints);
    TracksTip(h, Records(w.disk), First(w.disk.archives), w.history);
  }

  /**
   Any world that satisfies the invariant reopens exactly when it is anchored,
   and then with the tip of everything ever written.
   */
  lemma ReopensIffAnchored(h: Hmac, w: World)
    requires Invariant(h, w)
    ensures Reopens(h, w.disk) <==> Anchored(w.disk)
    ensures Reopens(h, w.disk) ==>
      && RetentionStart(w.disk.archives, Loaded(w.disk.store)).value.first == First(w.disk.archives)
      && TipOf(w.disk.archives, w.disk.live, Loaded(w.disk.store)) == w.Tip()
  {
    hide ChainInvariant;
    hide StoreInvariant;
    hide Truthful;
    hide Accepted;
    hide Loaded;
    hide NewestAnchor;
    LoadedIsNewest(w);
    TruthfulAccepted(h, w, Loaded(w.disk.store));
  }

  /**
   Stop the ledger after any number of file operations of any run: the files are
   accepted exactly when they are anchored, with the tip of the last record
   written, and the record appended next is the one that extends that tip.
   */
  lemma StopAnywhereReopens(h: Hmac, ops: seq<Op>, stop: nat, body: Event)
    requires Run(h, ops).Some? && stop <= |ops|
    ensures Run(h, ops[..stop]).Some?
    ensures var w := Run(h, ops[..stop]).value;
      && (Reopens(h, w.disk) <==> Anchored(w.disk))
      && (Reopens(h, w.disk) ==>
            var tip := TipOf(w.disk.archives, w.disk.live, Loaded(w.disk.store));
            var next := Content(tip.sequence + 1, body, tip.mac);
            && tip == w.Tip()
            && Enabled(h, w, WriteRecord(Record(next.sequence, next.body, next.previous, h(next)))))
  {
    RunPrefix(h, ops, stop);
    RunInvariant(h, ops[..stop]);
    ReopensIffAnchored(h, Run(h, ops[..stop]).value);
  }
}
