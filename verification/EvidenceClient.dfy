/**
 What a caller of the ledger may rely on over many appends: records leave the
 retained window only through rotations, and rotations only through bytes.
 */
module EvidenceClient {
  import opened EvidenceChain
  import opened EvidenceDisk
  import opened EvidenceLedger

  function MacsOf(records: seq<Record>): (macs: seq<Mac>)
    ensures |macs| == |records| && forall i :: 0 <= i < |macs| ==> macs[i] == records[i].mac
  {
    seq(|records|, i requires 0 <= i < |records| => records[i].mac)
  }

  /** The world with these records written to its live file. */
  function Extending(w: World, records: seq<Record>): World {
    w.(disk := w.disk.(live := w.disk.live + records), history := w.history + MacsOf(records))
  }

  /** The records that extend a history by these bodies. */
  function NextRecords(h: Hmac, w: World, bodies: seq<Event>): (records: seq<Record>)
    ensures |records| == |bodies|
  {
    if bodies == [] then []
    else
      var before := NextRecords(h, w, bodies[..|bodies| - 1]);
      before + [NextRecord(h, Extending(w, before), bodies[|bodies| - 1])]
  }

  lemma {:induction false} FileConcat(lineBytes: Record -> nat, a: seq<Record>, b: seq<Record>)
    ensures FileBytes(lineBytes, a + b) == FileBytes(lineBytes, a) + FileBytes(lineBytes, b)
  {
    if b == [] {
      assert a + b == a;
    } else {
      var n := |b| - 1;
      FileConcat(lineBytes, a, b[..n]);
      assert a + b == (a + b[..n]) + [b[n]];
      FileSnoc(lineBytes, a + b[..n], b[n]);
    }
  }

  lemma {:induction false} NextRecordsPrefix(h: Hmac, w: World, bodies: seq<Event>, n: nat)
    requires n <= |bodies|
    ensures NextRecords(h, w, bodies[..n]) == NextRecords(h, w, bodies)[..n]
    decreases |bodies|
  {
    if n == |bodies| {
      assert bodies[..n] == bodies;
    } else {
      var front := bodies[..|bodies| - 1];
      NextRecordsPrefix(h, w, front, n);
      assert front[..n] == bodies[..n];
    }
  }

  /** `w` is `start` with the records of `bodies` added to the live file, but for checkpoints and witness. */
  ghost predicate SoFar(h: Hmac, start: World, w: World, bodies: seq<Event>) {
    var records := NextRecords(h, start, bodies);
    && w.disk.archives == start.disk.archives && w.disk.live == start.disk.live + records
    && w.history == start.history + MacsOf(records)
  }

  lemma NothingYet(h: Hmac, w: World)
    ensures SoFar(h, w, w, [])
  {
  }

  /** Record `n` of the extension is the one that extends the history so far. */
  lemma NthRecord(h: Hmac, start: World, w: World, bodies: seq<Event>, n: nat)
    requires n < |bodies| && SoFar(h, start, w, bodies[..n])
    ensures NextRecord(h, w, bodies[n]) == NextRecords(h, start, bodies)[n]
  {
    NextRecordsPrefix(h, start, bodies, n + 1);
    assert bodies[..n + 1][..n] == bodies[..n];
  }

  /** If all of the extension fits the live file, so does its next record. */
  lemma NthFits(lineBytes: Record -> nat, live: seq<Record>, records: seq<Record>, n: nat)
    requires n < |records|
    ensures FileBytes(lineBytes, live + records[..n]) + lineBytes(records[n]) <= FileBytes(lineBytes, live + records)
  {
    hide FileBytes;
    FileSnoc(lineBytes, live + records[..n], records[n]);
    FileConcat(lineBytes, live + records[..n] + [records[n]], records[n + 1..]);
    assert live + records == (live + records[..n] + [records[n]]) + records[n + 1..];
  }

  lemma OneMore(h: Hmac, start: World, before: World, after: World, bodies: seq<Event>, n: nat)
    requires n < |bodies| && SoFar(h, start, before, bodies[..n])
    requires Extended(before, after, NextRecord(h, before, bodies[n]))
    ensures SoFar(h, start, after, bodies[..n + 1])
  {
    var records, next := NextRecords(h, start, bodies[..n]), NextRecord(h, before, bodies[n]);
    NthRecord(h, start, before, bodies, n);
    NextRecordsPrefix(h, start, bodies, n);
    NextRecordsPrefix(h, start, bodies, n + 1);
    hide NextRecords;
    hide NextRecord;
    assert NextRecords(h, start, bodies)[..n + 1] == records + [next];
    assert MacsOf(records + [next]) == MacsOf(records) + [next.mac];
  }

  /** Everything appended fits: each line its bound, and all of them the live file. */
  ghost predicate AllFit(lineBytes: Record -> nat, rotateBytes: nat, live: seq<Record>, records: seq<Record>) {
    && (forall i :: 0 <= i < |records| ==> lineBytes(records[i]) <= MAX_RECORD_BYTES)
    && FileBytes(lineBytes, live + records) <= rotateBytes
  }

  /**
   Appends many events. While nothing fails and all that was written since the last rotation
   fits the live file, no archive is made or removed: every record stays in the retained window.
   */
  method AppendAll(ledger: Ledger, bodies: seq<Event>) returns (ok: bool)
    requires ledger.Valid()
    modifies ledger
    ensures ledger.Valid() && ledger.faults >= old(ledger.faults)
    ensures var records := NextRecords(ledger.hmac, old(ledger.files), bodies);
      ledger.faults == old(ledger.faults)
      && AllFit(ledger.lineBytes, ledger.rotateBytes, old(ledger.files.disk.live), records) ==>
        ok && SoFar(ledger.hmac, old(ledger.files), ledger.files, bodies)
  {
    hide *;
    ghost var start := ledger.files;
    ghost var records := NextRecords(ledger.hmac, start, bodies);
    ghost var fits := AllFit(ledger.lineBytes, ledger.rotateBytes, start.disk.live, records);
    NothingYet(ledger.hmac, start);
    ok := true;
    var n := 0;
    assert bodies[..0] == [];
    while ok && n < |bodies|
      invariant n <= |bodies| && ledger.Valid() && ledger.faults >= old(ledger.faults)
      invariant fits && ledger.faults == old(ledger.faults) ==>
          ok && SoFar(ledger.hmac, start, ledger.files, bodies[..n])
    {
      ghost var before := ledger.files;
      ok := ledger.Append(bodies[n]);
      if fits && ledger.faults == old(ledger.faults) {
        FitsNext(ledger.hmac, start, before, bodies, n, ledger.lineBytes, ledger.rotateBytes);
        OneMore(ledger.hmac, start, before, ledger.files, bodies, n);
      }
      n := n + 1;
    }
    assert bodies[..|bodies|] == bodies;
  }

  lemma FitsNext(
      h: Hmac, start: World, w: World, bodies: seq<Event>, n: nat, lineBytes: Record -> nat, rotateBytes: nat)
    requires n < |bodies| && SoFar(h, start, w, bodies[..n])
    requires AllFit(lineBytes, rotateBytes, start.disk.live, NextRecords(h, start, bodies))
    ensures var next := NextRecord(h, w, bodies[n]);
      lineBytes(next) <= MAX_RECORD_BYTES && FileBytes(lineBytes, w.disk.live) + lineBytes(next) <= rotateBytes
  {
    hide FileBytes;
    hide NextRecord;
    NthRecord(h, start, w, bodies, n);
    NextRecordsPrefix(h, start, bodies, n);
    hide NextRecords;
    NthFits(lineBytes, start.disk.live, NextRecords(h, start, bodies), n);
  }

  /** What was retained stays retained, and the new records with it. */
  lemma WindowKept(h: Hmac, start: World, w: World, bodies: seq<Event>)
    requires SoFar(h, start, w, bodies)
    ensures Records(w.disk) == Records(start.disk) + NextRecords(h, start, bodies)
  {
    hide Flatten;
    hide NextRecords;
  }
}
