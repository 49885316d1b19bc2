/**
 The external witness: a signed copy of the chain tip kept outside the data
 root, compared with the verified chain and the signed checkpoints.
 */
module EvidenceWitness {
  import opened Wrappers
  import opened EvidenceChain
  import opened EvidenceDisk

  /** What reading the witness path gives; `Corrupt` covers every malformed or wrongly signed record. */
  datatype View = Unconfigured | Missing | Unreachable | Corrupt | Signed(tip: Tip)

  datatype Status = Status(configured: bool, reachable: bool, degraded: bool, verified: bool, sequence: nat)

  /** The witnesses a verified chain with this tip and these checkpoints does not contradict. */
  predicate Tolerated(view: View, tip: Tip, checkpoints: seq<Checkpoint>) {
    match view
    case Unconfigured => true
    case Missing => true
    case Unreachable => true
    case Corrupt => false
    case Signed(w) =>
      && 1 <= w.sequence <= tip.sequence
      && (w.sequence == tip.sequence ==> w.mac == tip.mac)
      && (w.sequence < tip.sequence ==>
            var mac := NewestMac(checkpoints, w.sequence);
            mac.Some? ==> mac.value == w.mac)
  }

  /** The witnesses that are confirmed by the tip or by a signed checkpoint. */
  predicate Confirmed(view: View, tip: Tip, checkpoints: seq<Checkpoint>) {
    && view.Signed?
    && Tolerated(view, tip, checkpoints)
    && (view.tip.sequence == tip.sequence || NewestMac(checkpoints, view.tip.sequence).Some?)
  }

  /** The backward search for the signed MAC at a sequence. */
  method CheckpointMac(checkpoints: seq<Checkpoint>, sequence: nat) returns (mac: Option<Mac>)
    ensures mac == NewestMac(checkpoints, sequence)
    ensures mac.None? <==> forall c :: c in checkpoints ==> c.sequence != sequence
  {
    NewestMacFound(checkpoints, sequence);
    var index: nat := |checkpoints|;
    assert checkpoints[..index] == checkpoints;
    while index > 0
      invariant index <= |checkpoints|
      invariant NewestMac(checkpoints[..index], sequence) == NewestMac(checkpoints, sequence)
    {
      index := index - 1;
      assert checkpoints[..index + 1][..index] == checkpoints[..index];
      if checkpoints[index].sequence == sequence {
        return Some(checkpoints[index].lastMAC);
      }
    }
    return None;
  }

  method VerifyWitness(view: View, tip: Tip, checkpoints: seq<Checkpoint>) returns (ok: bool, status: Status)
    ensures ok <==> Tolerated(view, tip, checkpoints)
    ensures status.verified <==> Confirmed(view, tip, checkpoints)
    ensures status.degraded <==> view.Missing? || view.Unreachable?
    ensures status.configured <==> !view.Unconfigured?
    ensures status.reachable <==> view.Signed? && view.tip.sequence > 0
    ensures status.sequence == if status.reachable then view.tip.sequence else 0
  {
    status := Status(!view.Unconfigured?, false, false, false, 0);
    match view
    case Unconfigured =>
      ok := true;
    case Missing =>
      ok, status := true, Status(true, false, true, false, 0);
    case Unreachable =>
      ok, status := true, Status(true, false, true, false, 0);
    case Corrupt =>
      ok := false;
    case Signed(w) =>
      if w.sequence == 0 {
        return false, status;
      }
      status := status.(reachable := true, sequence := w.sequence);
      if w.sequence > tip.sequence {
        return false, status;
      }
      if w.sequence == tip.sequence {
        if w.mac != tip.mac {
          return false, status;
        }
        return true, status.(verified := true);
      }
      var mac := CheckpointMac(checkpoints, w.sequence);
      if mac.Some? {
        if mac.value != w.mac {
          return false, status;
        }
        return true, status.(verified := true);
      }
      ok := true;
  }

  /**
   A witness published at any earlier point of the ledger's own life is never
   rejected later, whatever was appended, archived or pruned since.
   */
  lemma EarlierWitnessTolerated(h: Hmac, ops: seq<Op>, published: nat)
    requires Run(h, ops).Some? && published <= |ops|
    requires Run(h, ops[..published]).Some? && Run(h, ops[..published]).value.history != []
    ensures var w := Run(h, ops).value;
      Tolerated(Signed(Run(h, ops[..published]).value.Tip()), w.Tip(), Loaded(w.disk.store))
  {
    HistoryGrows(h, ops, published);
    RunInvariant(h, ops);
    TruthfulWitnessTolerated(Run(h, ops).value, Run(h, ops[..published]).value.Tip());
  }

  /** A witness that names a MAC of the history never contradicts what the ledger wrote. */
  lemma TruthfulWitnessTolerated(w: World, tip: Tip)
    requires StoreInvariant(w)
    requires 1 <= tip.sequence <= |w.history| && tip.mac == w.history[tip.sequence - 1]
    ensures Tolerated(Signed(tip), w.Tip(), Loaded(w.disk.store))
  {
    LoadedIsNewest(w);
    TruthfulNewest(Loaded(w.disk.store), w.history, tip.sequence);
  }

  lemma {:induction false} HistoryGrows(h: Hmac, ops: seq<Op>, n: nat)
    requires Run(h, ops).Some? && n <= |ops|
    ensures Run(h, ops[..n]).Some?
    ensures Run(h, ops[..n]).value.history <= Run(h, ops).value.history
    decreases |ops|
  {
    if n == |ops| {
      assert ops[..n] == ops;
    } else {
      HistoryGrows(h, ops[..|ops| - 1], n);
      assert ops[..|ops| - 1][..n] == ops[..n];
    }
  }

  /** The sequences at which a ledger still knows the MAC it wrote: its tip and the loaded checkpoints. */
  predicate Remembers(w: World, sequence: nat) {
    sequence == |w.history| || NewestMac(Loaded(w.disk.store), sequence).Some?
  }

  /**
   At every point of every run, a signed witness is rejected if and only if it is ahead
   of the chain, names no sequence, or differs from what was written at a sequence the
   ledger remembers.
   */
  lemma WitnessToleratedIff(h: Hmac, ops: seq<Op>, t: Tip)
    requires Run(h, ops).Some?
    ensures var w := Run(h, ops).value;
      Tolerated(Signed(t), w.Tip(), Loaded(w.disk.store)) <==>
        && 1 <= t.sequence <= |w.history|
        && (Remembers(w, t.sequence) ==> t.mac == w.history[t.sequence - 1])
  {
    hide ChainInvariant;
    hide NewestMac;
    hide Loaded;
    RunInvariant(h, ops);
    hide Run;
    var w := Run(h, ops).value;
    LoadedIsNewest(w);
    TruthfulNewest(Loaded(w.disk.store), w.history, t.sequence);
  }

  /**
   On any accepted ledger, a confirmed witness names the MAC of the record at its
   sequence, or of the newest signed checkpoint there once that record is pruned.
   */
  lemma ConfirmedNamesTheRecord(h: Hmac, archives: seq<Archive>, live: seq<Record>, checkpoints: seq<Checkpoint>,
      w: Tip)
    requires Accepted(h, archives, live, checkpoints)
    requires Confirmed(Signed(w), TipOf(archives, live, checkpoints), checkpoints)
    ensures var first := RetentionStart(archives, checkpoints).value.first;
      if first <= w.sequence then
        && w.sequence < first + |Flatten(archives) + live|
        && At(Flatten(archives) + live, first, w.sequence).mac == w.mac
      else NewestMac(checkpoints, w.sequence) == Some(w.mac)
  {
    if archives != [] {
      ArchiveNonempty(archives, RetentionStart(archives, checkpoints).value.first, 0);
      PruneRecords(archives);
    }
    var Start(first, previous) := RetentionStart(archives, checkpoints).value;
    ConfirmedOnChain(Flatten(archives) + live, first, previous, checkpoints, w);
  }

  lemma ConfirmedOnChain(records: seq<Record>, first: nat, previous: Mac, checkpoints: seq<Checkpoint>, w: Tip)
    requires CheckpointsAgree(records, first, checkpoints) && (first == 1 || (first > 1 && records != []))
    requires Confirmed(Signed(w), Tip(first + |records| - 1, LastMac(records, previous)), checkpoints)
    ensures if first <= w.sequence then
        w.sequence < first + |records| && At(records, first, w.sequence).mac == w.mac
      else NewestMac(checkpoints, w.sequence) == Some(w.mac)
  {
    NewestMacFound(checkpoints, w.sequence);
  }

  lemma LinkedPrefix(h: Hmac, records: seq<Record>, first: nat, previous: Mac, n: nat)
    requires Linked(h, records, first, previous) && n <= |records|
    ensures Linked(h, records[..n], first, previous)
  {
    assert records == records[..n] + records[n..];
    LinkedConcat(h, records[..n], records[n..], first, previous);
  }

  /**
   What the witness is for: under a collision-free MAC, two ledgers that both
   confirm the same witness, and still retain its record, hold the same records
   at every retained sequence up to it, so history below a witness cannot be rewritten.
   */
  lemma WitnessPinsHistory(h: Hmac, w: Tip,
                           archivesA: seq<Archive>, liveA: seq<Record>, checkpointsA: seq<Checkpoint>,
                           archivesB: seq<Archive>, liveB: seq<Record>, checkpointsB: seq<Checkpoint>,
                           sequence: nat)
    requires Injective(h)
    requires Accepted(h, archivesA, liveA, checkpointsA) && Accepted(h, archivesB, liveB, checkpointsB)
    requires Confirmed(Signed(w), TipOf(archivesA, liveA, checkpointsA), checkpointsA)
    requires Confirmed(Signed(w), TipOf(archivesB, liveB, checkpointsB), checkpointsB)
    requires RetentionStart(archivesA, checkpointsA).value.first <= sequence <= w.sequence
    requires RetentionStart(archivesB, checkpointsB).value.first <= sequence
    ensures At(Flatten(archivesA) + liveA, RetentionStart(archivesA, checkpointsA).value.first, sequence)
         == At(Flatten(archivesB) + liveB, RetentionStart(archivesB, checkpointsB).value.first, sequence)
  {
    ConfirmedNamesTheRecord(h, archivesA, liveA, checkpointsA, w);
    ConfirmedNamesTheRecord(h, archivesB, liveB, checkpointsB, w);
    var Start(firstA, previousA) := RetentionStart(archivesA, checkpointsA).value;
    var Start(firstB, previousB) := RetentionStart(archivesB, checkpointsB).value;
    PrefixesAgree(h, Flatten(archivesA) + liveA, Flatten(archivesB) + liveB,
                  firstA, firstB, previousA, previousB, w, sequence);
  }

  lemma PrefixesAgree(h: Hmac, a: seq<Record>, b: seq<Record>, firstA: nat, firstB: nat,
                      previousA: Mac, previousB: Mac, w: Tip, sequence: nat)
    requires Injective(h)
    requires Linked(h, a, firstA, previousA) && Linked(h, b, firstB, previousB)
    requires firstA <= sequence <= w.sequence < firstA + |a| && firstB <= sequence && w.sequence < firstB + |b|
    requires At(a, firstA, w.sequence).mac == w.mac == At(b, firstB, w.sequence).mac
    ensures At(a, firstA, sequence) == At(b, firstB, sequence)
  {
    var a', b' := a[..w.sequence - firstA + 1], b[..w.sequence - firstB + 1];
    LinkedPrefix(h, a, firstA, previousA, |a'|);
    LinkedPrefix(h, b, firstB, previousB, |b'|);
    ChainsAgree(h, a', b', firstA, firstB, previousA, previousB, sequence);
  }
}
