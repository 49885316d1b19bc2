/**
 The verification walk over archives and live file, as the source runs it: one
 pass that links records, overwrites a sequence-to-MAC table seeded from the
 checkpoints, and finally holds every checkpoint against that table.
 */
module EvidenceVerify {
  import opened Wrappers
  import opened EvidenceChain

  /** The table after a pass over `records`: chain MACs where records were seen, else the newest checkpoint. */
  ghost predicate TableHolds(macs: map<nat, Mac>, records: seq<Record>, first: nat, checkpoints: seq<Checkpoint>) {
    && (forall q: nat :: q in macs <==> first <= q < first + |records| || NewestMac(checkpoints, q).Some?)
    && forall q: nat :: q in macs ==>
         macs[q] == if first <= q < first + |records| then records[q - first].mac else NewestMac(checkpoints, q).value
  }

  /** Seeds the table from the checkpoints; a later checkpoint overwrites an earlier one. */
  method SeedTable(checkpoints: seq<Checkpoint>) returns (macs: map<nat, Mac>)
    ensures TableHolds(macs, [], 0, checkpoints)
  {
    macs := map[];
    var i := 0;
    while i < |checkpoints|
      invariant i <= |checkpoints|
      invariant TableHolds(macs, [], 0, checkpoints[..i])
    {
      assert checkpoints[..i + 1][..i] == checkpoints[..i];
      macs := macs[checkpoints[i].sequence := checkpoints[i].lastMAC];
      i := i + 1;
    }
    assert checkpoints[..i] == checkpoints;
  }

  lemma TableStep(macs: map<nat, Mac>, records: seq<Record>, r: Record, first: nat, checkpoints: seq<Checkpoint>)
    requires TableHolds(macs, records, first, checkpoints)
    requires r.sequence == first + |records|
    ensures TableHolds(macs[r.sequence := r.mac], records + [r], first, checkpoints)
  {
  }

  lemma LinkedSnoc(h: Hmac, file: seq<Record>, i: nat, first: nat, previous: Mac)
    requires i < |file| && Linked(h, file[..i], first, previous)
    ensures Linked(h, file[..i + 1], first, previous)
       <==> (&& file[i].sequence == first + i
             && file[i].previous == LastMac(file[..i], previous)
             && file[i].mac == h(file[i].Signed()))
    ensures Linked(h, file, first, previous) ==> Linked(h, file[..i + 1], first, previous)
  {
    LinkedConcat(h, file[..i], [file[i]], first, previous);
    assert file[..i] + [file[i]] == file[..i + 1];
    LinkedConcat(h, file[..i + 1], file[i + 1..], first, previous);
    assert file[..i + 1] + file[i + 1..] == file;
  }

  /** Scans one file: links each record to its predecessor, authenticates it and records its MAC. */
  method ScanFile(h: Hmac, file: seq<Record>, expected0: nat, previous0: Mac, macs0: map<nat, Mac>,
                  ghost done: seq<Record>, ghost first: nat, ghost checkpoints: seq<Checkpoint>)
    returns (ok: bool, expected: nat, previous: Mac, macs: map<nat, Mac>)
    requires expected0 == first + |done|
    requires TableHolds(macs0, done, first, checkpoints)
    ensures ok <==> Linked(h, file, expected0, previous0)
    ensures ok ==> expected == expected0 + |file| && previous == LastMac(file, previous0)
    ensures ok ==> TableHolds(macs, done + file, first, checkpoints)
  {
    ok, expected, previous, macs := true, expected0, previous0, macs0;
    assert done + file[..0] == done;
    var i := 0;
    while i < |file|
      invariant i <= |file|
      invariant Linked(h, file[..i], expected0, previous0)
      invariant expected == expected0 + i && previous == LastMac(file[..i], previous0)
      invariant TableHolds(macs, done + file[..i], first, checkpoints)
    {
      var record := file[i];
      LinkedSnoc(h, file, i, expected0, previous0);
      if record.sequence != expected || record.previous != previous {
        return false, expected, previous, macs;
      }
      if record.mac != h(record.Signed()) {
        return false, expected, previous, macs;
      }
      assert done + file[..i + 1] == done + file[..i] + [record];
      TableStep(macs, done + file[..i], record, first, checkpoints);
      macs := macs[record.sequence := record.mac];
      previous := record.mac;
      expected := expected + 1;
      i := i + 1;
    }
    assert file[..i] == file;
  }

  /** The backward search of the retention start. */
  method FindRetentionStart(archives: seq<Archive>, checkpoints: seq<Checkpoint>) returns (start: Option<Start>)
    ensures start == RetentionStart(archives, checkpoints)
  {
    if archives == [] {
      return Some(Start(1, NoMac));
    }
    var oldest := archives[0];
    if oldest.first == 1 {
      return Some(Start(1, NoMac));
    }
    if oldest.records == [] {
      return None;
    }
    var firstPrevious := oldest.records[0].previous;
    var index: nat := |checkpoints|;
    assert checkpoints[..index] == checkpoints;
    while index > 0
      invariant index <= |checkpoints|
      invariant NewestAnchor(checkpoints[..index], oldest.first) == NewestAnchor(checkpoints, oldest.first)
    {
      index := index - 1;
      assert checkpoints[..index + 1][..index] == checkpoints[..index];
      var checkpoint := checkpoints[index];
      if checkpoint.kind == RetentionMark && checkpoint.retainedFrom == oldest.first {
        if checkpoint.retainedPrevious != firstPrevious {
          return None;
        }
        return Some(Start(oldest.first, firstPrevious));
      }
    }
    return None;
  }

  /** The last check of the walk: no checkpoint is newer than the chain or names another MAC. */
  method CompareCheckpoints(checkpoints: seq<Checkpoint>, total: nat, macs: map<nat, Mac>,
                            ghost records: seq<Record>, ghost first: nat)
    returns (ok: bool)
    requires total + 1 == first + |records|
    requires TableHolds(macs, records, first, checkpoints)
    ensures ok <==> CheckpointsAgree(records, first, checkpoints)
  {
    var i := 0;
    while i < |checkpoints|
      invariant i <= |checkpoints|
      invariant forall j :: 0 <= j < i ==>
        && checkpoints[j].sequence <= total
        && checkpoints[j].sequence in macs
        && macs[checkpoints[j].sequence] == checkpoints[j].lastMAC
    {
      var checkpoint := checkpoints[i];
      NewestMacFound(checkpoints, checkpoint.sequence);
      if checkpoint.sequence > total {
        assert checkpoint in checkpoints;
        return false;
      }
      if checkpoint.sequence in macs && macs[checkpoint.sequence] != checkpoint.lastMAC {
        assert checkpoint in checkpoints;
        return false;
      }
      i := i + 1;
    }
    forall c | c in checkpoints
      ensures c.sequence < first + |records|
      ensures if first <= c.sequence then c.lastMAC == records[c.sequence - first].mac
              else NewestMac(checkpoints, c.sequence) == Some(c.lastMAC)
    {
      var j :| 0 <= j < |checkpoints| && checkpoints[j] == c;
      NewestMacFound(checkpoints, c.sequence);
    }
    return true;
  }

  /** The archives before `i` pass: their ranges join up, their records link and the table knows them. */
  ghost predicate Walked(h: Hmac, archives: seq<Archive>, i: nat, start: Start, expected: nat, previous: Mac,
                         macs: map<nat, Mac>, checkpoints: seq<Checkpoint>)
    requires i <= |archives|
  {
    var done := Flatten(archives[..i]);
    && Contiguous(archives[..i], start.first)
    && Linked(h, done, start.first, start.previous)
    && expected == start.first + |done| && previous == LastMac(done, start.previous)
    && TableHolds(macs, done, start.first, checkpoints)
  }

  lemma ContiguousSnoc(archives: seq<Archive>, i: nat, first: nat)
    requires i < |archives| && Contiguous(archives[..i], first)
    ensures Contiguous(archives[..i + 1], first)
       <==> (&& archives[i].first == first + |Flatten(archives[..i])|
             && archives[i].last + 1 == archives[i].first + |archives[i].records|)
    ensures Contiguous(archives, first) ==> Contiguous(archives[..i + 1], first)
  {
    ContiguousLength(archives[..i], first);
    hide Flatten;
    assert forall j :: 0 <= j <= i ==> archives[..i + 1][j] == archives[j];
    assert forall j :: 0 <= j < i ==> archives[..i][j] == archives[j];
  }

  lemma RejectAtArchive(h: Hmac, archives: seq<Archive>, live: seq<Record>, i: nat, first: nat, previous: Mac)
    requires i < |archives|
    requires Linked(h, Flatten(archives) + live, first, previous)
    ensures Linked(h, archives[i].records, first + |Flatten(archives[..i])|, LastMac(Flatten(archives[..i]), previous))
  {
    hide Linked;
    var before, after := Flatten(archives[..i]), Flatten(archives[i + 1..]) + live;
    assert archives == archives[..i + 1] + archives[i + 1..];
    FlattenConcat(archives[..i + 1], archives[i + 1..]);
    FlattenPrefix(archives, i);
    assert Flatten(archives) + live == (before + archives[i].records) + after;
    LinkedConcat(h, before + archives[i].records, after, first, previous);
    LinkedConcat(h, before, archives[i].records, first, previous);
  }

  lemma WalkStep(h: Hmac, archives: seq<Archive>, i: nat, start: Start)
    requires i < |archives|
    ensures Flatten(archives[..i + 1]) == Flatten(archives[..i]) + archives[i].records
    ensures Linked(h, Flatten(archives[..i]), start.first, start.previous)
         && Linked(h, archives[i].records, start.first + |Flatten(archives[..i])|,
           LastMac(Flatten(archives[..i]), start.previous))
        ==> Linked(h, Flatten(archives[..i + 1]), start.first, start.previous)
    ensures LastMac(Flatten(archives[..i + 1]), start.previous)
         == LastMac(archives[i].records, LastMac(Flatten(archives[..i]), start.previous))
  {
    hide Linked;
    FlattenPrefix(archives, i);
    LinkedConcat(h, Flatten(archives[..i]), archives[i].records, start.first, start.previous);
  }

  /** Walks the archives in order: each must continue where the one before it ended. */
  method WalkArchives(h: Hmac, archives: seq<Archive>, start: Start, macs0: map<nat, Mac>,
                      ghost live: seq<Record>, ghost checkpoints: seq<Checkpoint>)
    returns (ok: bool, expected: nat, previous: Mac, macs: map<nat, Mac>)
    requires TableHolds(macs0, [], start.first, checkpoints)
    ensures ok ==> Walked(h, archives, |archives|, start, expected, previous, macs, checkpoints)
    ensures !ok ==>
      !Contiguous(archives, start.first) || !Linked(h, Flatten(archives) + live, start.first, start.previous)
  {
    ok, expected, previous, macs := true, start.first, start.previous, macs0;
    var i := 0;
    assert Walked(h, archives, i, start, expected, previous, macs, checkpoints);
    hide *;
    while i < |archives|
      invariant i <= |archives|
      invariant Walked(h, archives, i, start, expected, previous, macs, checkpoints)
    {
      ok, expected, previous, macs := WalkOne(h, archives, i, start, expected, previous, macs, live, checkpoints);
      if !ok {
        return;
      }
      i := i + 1;
    }
    return true, expected, previous, macs;
  }

  /** Walks one archive: its name, its records and the end of its range. */
  method WalkOne(h: Hmac, archives: seq<Archive>, i: nat, start: Start, expected0: nat, previous0: Mac,
                 macs0: map<nat, Mac>, ghost live: seq<Record>, ghost checkpoints: seq<Checkpoint>)
    returns (ok: bool, expected: nat, previous: Mac, macs: map<nat, Mac>)
    requires i < |archives| && Walked(h, archives, i, start, expected0, previous0, macs0, checkpoints)
    ensures ok ==> Walked(h, archives, i + 1, start, expected, previous, macs, checkpoints)
    ensures !ok ==>
      !Contiguous(archives, start.first) || !Linked(h, Flatten(archives) + live, start.first, start.previous)
  {
    hide Linked;
    hide Contiguous;
    hide TableHolds;
    hide Flatten;
    hide LastMac;
    ok, expected, previous, macs := false, expected0, previous0, macs0;
    var archive := archives[i];
    ghost var done := Flatten(archives[..i]);
    ContiguousSnoc(archives, i, start.first);
    if archive.first != expected {
      return;
    }
    ok, expected, previous, macs :=
      ScanFile(h, archive.records, expected, previous, macs, done, start.first, checkpoints);
    if !ok {
      assert !Linked(h, Flatten(archives) + live, start.first, start.previous) by {
        if Linked(h, Flatten(archives) + live, start.first, start.previous) {
          RejectAtArchive(h, archives, live, i, start.first, start.previous);
        }
      }
      return;
    }
    if expected == 0 || expected - 1 != archive.last {
      ok := false;
      return;
    }
    WalkStep(h, archives, i, start);
  }

  /** Verification accepts exactly the `Accepted` files and reports their tip. */
  method VerifyFiles(h: Hmac, archives: seq<Archive>, live: seq<Record>, checkpoints: seq<Checkpoint>)
    returns (result: Option<Tip>)
    requires NamesAllowed(archives)
    ensures result.Some? <==> Accepted(h, archives, live, checkpoints)
    ensures result.Some? ==> result.value == TipOf(archives, live, checkpoints)
  {
    var start := FindRetentionStart(archives, checkpoints);
    if start.None? {
      return None;
    }
    var macs := SeedTable(checkpoints);
    assert TableHolds(macs, [], start.value.first, checkpoints);
    hide Linked;
    hide Contiguous;
    hide TableHolds;
    hide CheckpointsAgree;
    hide RetentionStart;
    var ok, expected, previous;
    ok, expected, previous, macs := WalkArchives(h, archives, start.value, macs, live, checkpoints);
    if !ok {
      return None;
    }
    assert archives[..|archives|] == archives;
    ghost var done := Flatten(archives);
    LinkedConcat(h, done, live, start.value.first, start.value.previous);
    ok, expected, previous, macs := ScanFile(h, live, expected, previous, macs, done, start.value.first, checkpoints);
    if !ok {
      return None;
    }
    ok := CompareCheckpoints(checkpoints, expected - 1, macs, done + live, start.value.first);
    if !ok {
      return None;
    }
    return Some(Tip(expected - 1, previous));
  }
}
