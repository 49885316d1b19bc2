/**
 Records, archives and signed checkpoints of the evidence ledger, and the
 declarative meaning of an accepted ledger: which files `VerifyFiles` must let
 through. HMAC-SHA256 under the ledger key is a function parameter; only the
 theorems that rest on collision freedom assume it injective.
 */
module EvidenceChain {
  import opened Wrappers

  const MAX_CHECKPOINTS_IN_MEMORY := 8192
  const MAX_CHECKPOINT_FILE_BYTES := 4194304

  /** An opaque MAC; `NoMac` is the empty predecessor of the first record. */
  datatype Mac = NoMac | Digest(value: nat)

  /** Timestamp, kind, action and result of a record, as one opaque value. */
  type Event = nat

  /** The authenticated part of a record. */
  datatype Content = Content(sequence: nat, body: Event, previous: Mac)

  type Hmac = Content -> Mac

  ghost predicate Injective(h: Hmac) {
    forall c, d :: h(c) == h(d) ==> c == d
  }

  datatype Record = Record(sequence: nat, body: Event, previous: Mac, mac: Mac) {
    function Signed(): Content {
      Content(sequence, body, previous)
    }
  }

  /** An archived journal; `first` and `last` are the numbers in its file name. */
  datatype Archive = Archive(first: nat, last: nat, records: seq<Record>)

  datatype Kind = TipMark | ArchiveMark | RetentionMark

  /** A signed checkpoint line; `signed` is the Ed25519 verdict, `bytes` the line length with its newline. */
  datatype Checkpoint = Checkpoint(
    kind: Kind, sequence: nat, lastMAC: Mac,
    retainedFrom: nat, retainedPrevious: Mac,
    signed: bool, bytes: nat)

  datatype Tip = Tip(sequence: nat, mac: Mac)

  function Flatten(archives: seq<Archive>): seq<Record> {
    if archives == [] then [] else Flatten(archives[..|archives| - 1]) + archives[|archives| - 1].records
  }

  function LastMac(records: seq<Record>, previous: Mac): Mac {
    if records == [] then previous else records[|records| - 1].mac
  }

  /** `records` is an authentic chain that starts at `first` and continues `previous`. */
  ghost predicate Linked(h: Hmac, records: seq<Record>, first: nat, previous: Mac) {
    && (forall i {:trigger records[i].sequence} :: 0 <= i < |records| ==> records[i].sequence == first + i)
    && (forall i {:trigger records[i].Signed()} :: 0 <= i < |records| ==> records[i].mac == h(records[i].Signed()))
    && (records != [] ==> records[0].previous == previous)
    && (forall i {:trigger records[i].previous} :: 0 < i < |records| ==> records[i].previous == records[i - 1].mac)
  }

  /** The sequence after a run of archives that starts at `first`. */
  function Next(archives: seq<Archive>, first: nat): nat {
    if archives == [] then first else archives[|archives| - 1].last + 1
  }

  /** Each archive holds exactly the sequence range in its name, and the ranges join up from `first`. */
  ghost predicate Contiguous(archives: seq<Archive>, first: nat) {
    && (forall i {:trigger archives[i].records} :: 0 <= i < |archives| ==>
      archives[i].last + 1 == archives[i].first + |archives[i].records|)
    && (archives != [] ==> archives[0].first == first)
    && (forall i {:trigger archives[i].first} :: 0 < i < |archives| ==> archives[i].first == archives[i - 1].last + 1)
  }

  /** Archive names the directory scan lets through. */
  predicate NamesAllowed(archives: seq<Archive>) {
    forall a :: a in archives ==> 1 <= a.first <= a.last
  }

  /** The MAC of the newest checkpoint for `sequence`. */
  function NewestMac(checkpoints: seq<Checkpoint>, sequence: nat): Option<Mac> {
    if checkpoints == [] then None
    else
      var c := checkpoints[|checkpoints| - 1];
      if c.sequence == sequence then Some(c.lastMAC)
      else NewestMac(checkpoints[..|checkpoints| - 1], sequence)
  }

  /** The newest retention anchor for a first retained sequence. */
  function NewestAnchor(checkpoints: seq<Checkpoint>, first: nat): Option<Checkpoint> {
    if checkpoints == [] then None
    else
      var c := checkpoints[|checkpoints| - 1];
      if c.kind == RetentionMark && c.retainedFrom == first then Some(c)
      else NewestAnchor(checkpoints[..|checkpoints| - 1], first)
  }

  datatype Start = Start(first: nat, previous: Mac)

  /** Where the retained chain begins: at genesis, or at a signed retention anchor. */
  function RetentionStart(archives: seq<Archive>, checkpoints: seq<Checkpoint>): Option<Start> {
    if archives == [] || archives[0].first == 1 then Some(Start(1, NoMac))
    else if archives[0].records == [] then None
    else
      var previous := archives[0].records[0].previous;
      match NewestAnchor(checkpoints, archives[0].first)
      case None => None
      case Some(anchor) =>
        if anchor.retainedPrevious == previous then Some(Start(archives[0].first, previous)) else None
  }

  /** No checkpoint is newer than the chain, and each names the MAC the chain (or the newest checkpoint) has there. */
  predicate CheckpointsAgree(records: seq<Record>, first: nat, checkpoints: seq<Checkpoint>) {
    forall c :: c in checkpoints ==>
      && c.sequence < first + |records|
      && (if first <= c.sequence then c.lastMAC == records[c.sequence - first].mac
          else NewestMac(checkpoints, c.sequence) == Some(c.lastMAC))
  }

  /** The ledger files that verification accepts. */
  ghost predicate Accepted(h: Hmac, archives: seq<Archive>, live: seq<Record>, checkpoints: seq<Checkpoint>) {
    && NamesAllowed(archives)
    && var start := RetentionStart(archives, checkpoints);
    && start.Some?
    && var Start(first, previous) := start.value;
    && var records := Flatten(archives) + live;
    && Contiguous(archives, first)
    && Linked(h, records, first, previous)
    && CheckpointsAgree(records, first, checkpoints)
  }

  /** The tip an accepted ledger has. */
  function TipOf(archives: seq<Archive>, live: seq<Record>, checkpoints: seq<Checkpoint>): (t: Tip)
    requires RetentionStart(archives, checkpoints).Some?
    requires RetentionStart(archives, checkpoints).value.first >= 1
  {
    var Start(first, previous) := RetentionStart(archives, checkpoints).value;
    var records := Flatten(archives) + live;
    Tip(first + |records| - 1, LastMac(records, previous))
  }

  // ---------------------------------------------------------------- chain algebra

  lemma LinkedConcat(h: Hmac, a: seq<Record>, b: seq<Record>, first: nat, previous: Mac)
    ensures Linked(h, a + b, first, previous)
       <==> Linked(h, a, first, previous) && Linked(h, b, first + |a|, LastMac(a, previous))
  {
    var all := a + b;
    assert forall i :: 0 <= i < |a| ==> all[i] == a[i];
    assert forall i :: 0 <= i < |b| ==> all[|a| + i] == b[i];
    if Linked(h, all, first, previous) {
      forall i | 0 <= i < |a|
        ensures a[i].sequence == first + i && a[i].mac == h(a[i].Signed())
        ensures a[i].previous == if i == 0 then previous else a[i - 1].mac
      {
        assert all[i].sequence == first + i && all[i].mac == h(all[i].Signed());
        assert i > 0 ==> all[i].previous == all[i - 1].mac;
      }
      forall i | 0 <= i < |b|
        ensures b[i].sequence == first + |a| + i && b[i].mac == h(b[i].Signed())
        ensures b[i].previous == if i == 0 then LastMac(a, previous) else b[i - 1].mac
      {
        var k := |a| + i;
        assert all[k].sequence == first + k && all[k].mac == h(all[k].Signed());
        assert k > 0 ==> all[k].previous == all[k - 1].mac;
      }
    }
  }

  lemma {:induction false} ContiguousLength(archives: seq<Archive>, first: nat)
    requires Contiguous(archives, first)
    ensures first + |Flatten(archives)| == Next(archives, first)
  {
    if archives != [] {
      ContiguousLength(archives[..|archives| - 1], first);
    }
  }

  lemma FlattenPrefix(archives: seq<Archive>, i: nat)
    requires i < |archives|
    ensures Flatten(archives[..i + 1]) == Flatten(archives[..i]) + archives[i].records
  {
    assert archives[..i + 1][..i] == archives[..i];
  }

  lemma {:induction false} FlattenConcat(a: seq<Archive>, b: seq<Archive>)
    ensures Flatten(a + b) == Flatten(a) + Flatten(b)
    decreases |b|
  {
    if b == [] {
      assert a + b == a;
    } else {
      var n := |b| - 1;
      assert (a + b)[..|a + b| - 1] == a + b[..n];
      FlattenConcat(a, b[..n]);
    }
  }

  lemma {:induction false} NewestMacFound(checkpoints: seq<Checkpoint>, sequence: nat)
    ensures NewestMac(checkpoints, sequence).None? <==> forall c :: c in checkpoints ==> c.sequence != sequence
    ensures NewestMac(checkpoints, sequence).Some? ==>
      exists c :: c in checkpoints && c.sequence == sequence && c.lastMAC == NewestMac(checkpoints, sequence).value
  {
    if checkpoints != [] {
      var rest := checkpoints[..|checkpoints| - 1];
      NewestMacFound(rest, sequence);
      assert checkpoints == rest + [checkpoints[|checkpoints| - 1]];
    }
  }

  lemma {:induction false} NewestAnchorFound(checkpoints: seq<Checkpoint>, first: nat)
    ensures NewestAnchor(checkpoints, first).None?
       <==> forall c :: c in checkpoints ==> !(c.kind == RetentionMark && c.retainedFrom == first)
    ensures NewestAnchor(checkpoints, first).Some? ==>
      var c := NewestAnchor(checkpoints, first).value;
      c in checkpoints && c.kind == RetentionMark && c.retainedFrom == first
  {
    if checkpoints != [] {
      var rest := checkpoints[..|checkpoints| - 1];
      NewestAnchorFound(rest, first);
      assert checkpoints == rest + [checkpoints[|checkpoints| - 1]];
    }
  }

  // ---------------------------------------------------------------- the chain determines its records

  /** The record of a chain at a sequence it retains. */
  function At(records: seq<Record>, first: nat, sequence: nat): Record
    requires first <= sequence < first + |records|
  {
    records[sequence - first]
  }

  /**
   Under a collision-free MAC, two chains that end in the same sequence and the
   same MAC hold the same record at every sequence both contain.
   */
  lemma {:induction false} ChainsAgree(h: Hmac, a: seq<Record>, b: seq<Record>,
                                       firstA: nat, firstB: nat, previousA: Mac, previousB: Mac, sequence: nat)
    requires Injective(h)
    requires Linked(h, a, firstA, previousA) && Linked(h, b, firstB, previousB)
    requires firstA + |a| == firstB + |b|
    requires LastMac(a, previousA) == LastMac(b, previousB)
    requires firstA <= sequence < firstA + |a| && firstB <= sequence
    ensures At(a, firstA, sequence) == At(b, firstB, sequence)
    decreases firstA + |a| - sequence
  {
    var i, j := sequence - firstA, sequence - firstB;
    if sequence + 1 < firstA + |a| {
      ChainsAgree(h, a, b, firstA, firstB, previousA, previousB, sequence + 1);
      assert a[i + 1].previous == a[i].mac && b[j + 1].previous == b[j].mac;
    }
    assert a[i].mac == h(a[i].Signed()) && b[j].mac == h(b[j].Signed());
    assert a[i].Signed() == b[j].Signed();
  }

  /**
   Two accepted ledgers with the same tip agree on every sequence both retain,
   however each splits its records over live file and archives.
   */
  lemma SameTipSameRecords(h: Hmac,
                           archivesA: seq<Archive>, liveA: seq<Record>, checkpointsA: seq<Checkpoint>,
                           archivesB: seq<Archive>, liveB: seq<Record>, checkpointsB: seq<Checkpoint>,
                           sequence: nat)
    requires Injective(h)
    requires Accepted(h, archivesA, liveA, checkpointsA) && Accepted(h, archivesB, liveB, checkpointsB)
    requires TipOf(archivesA, liveA, checkpointsA) == TipOf(archivesB, liveB, checkpointsB)
    requires RetentionStart(archivesA, checkpointsA).value.first <= sequence
    requires RetentionStart(archivesB, checkpointsB).value.first <= sequence
    requires sequence <= TipOf(archivesA, liveA, checkpointsA).sequence
    ensures At(Flatten(archivesA) + liveA, RetentionStart(archivesA, checkpointsA).value.first, sequence)
         == At(Flatten(archivesB) + liveB, RetentionStart(archivesB, checkpointsB).value.first, sequence)
  {
    var Start(firstA, previousA) := RetentionStart(archivesA, checkpointsA).value;
    var Start(firstB, previousB) := RetentionStart(archivesB, checkpointsB).value;
    ChainsAgree(h, Flatten(archivesA) + liveA, Flatten(archivesB) + liveB, firstA, firstB, previousA, previousB,
      sequence);
  }

  // ---------------------------------------------------------------- pruned history is anchored

  /** A signed anchor for a chain that starts at `first` after `previous`. */
  predicate AnchorFor(c: Checkpoint, first: nat, previous: Mac) {
    c.kind == RetentionMark && c.retainedFrom == first && c.retainedPrevious == previous
  }

  /** Checkpoint `i` is the newest anchor for `first`. */
  ghost predicate NewestFor(checkpoints: seq<Checkpoint>, i: int, first: nat) {
    && 0 <= i < |checkpoints| && checkpoints[i].kind == RetentionMark && checkpoints[i].retainedFrom == first
    && forall j :: i < j < |checkpoints| ==>
         !(checkpoints[j].kind == RetentionMark && checkpoints[j].retainedFrom == first)
  }

  /**
   An accepted ledger starts at genesis, or its first record continues exactly the MAC that the
   newest signed anchor for its oldest archive names; without such an anchor it is rejected.
   */
  lemma AcceptedStartIsAnchored(h: Hmac, archives: seq<Archive>, live: seq<Record>, checkpoints: seq<Checkpoint>)
    requires Accepted(h, archives, live, checkpoints)
    ensures var records := Flatten(archives) + live;
      if archives == [] || archives[0].first == 1 then
        records != [] ==> records[0].sequence == 1 && records[0].previous == NoMac
      else
        && records != [] && records[0].sequence == archives[0].first
        && exists i :: NewestFor(checkpoints, i, archives[0].first)
                       && AnchorFor(checkpoints[i], archives[0].first, records[0].previous)
  {
    if archives != [] && archives[0].first != 1 {
      FlattenHead(archives);
      var i := NewestAnchorAt(checkpoints, archives[0].first);
      assert AnchorFor(checkpoints[i], archives[0].first, (Flatten(archives) + live)[0].previous);
    }
  }

  lemma {:induction false} FlattenHead(archives: seq<Archive>)
    requires archives != [] && archives[0].records != []
    ensures Flatten(archives) != [] && Flatten(archives)[0] == archives[0].records[0]
  {
    assert archives == archives[..1] + archives[1..];
    FlattenConcat(archives[..1], archives[1..]);
    FlattenPrefix(archives, 0);
    assert archives[..0] == [];
  }

  lemma {:induction false} NewestAnchorAt(checkpoints: seq<Checkpoint>, first: nat) returns (i: int)
    requires NewestAnchor(checkpoints, first).Some?
    ensures NewestFor(checkpoints, i, first) && checkpoints[i] == NewestAnchor(checkpoints, first).value
  {
    var n := |checkpoints| - 1;
    if checkpoints[n].kind == RetentionMark && checkpoints[n].retainedFrom == first {
      i := n;
    } else {
      i := NewestAnchorAt(checkpoints[..n], first);
      forall j | i < j < |checkpoints|
        ensures !(checkpoints[j].kind == RetentionMark && checkpoints[j].retainedFrom == first)
      {
        assert j < n ==> checkpoints[..n][j] == checkpoints[j];
      }
    }
  }

  // ---------------------------------------------------------------- acceptance, one step at a time

  /** An accepted ledger's start and chain. */
  lemma AcceptedStart(h: Hmac, archives: seq<Archive>, live: seq<Record>, checkpoints: seq<Checkpoint>)
    requires Accepted(h, archives, live, checkpoints)
    ensures RetentionStart(archives, checkpoints).Some? && RetentionStart(archives, checkpoints).value.first >= 1
    ensures archives != [] ==> archives[0].first == RetentionStart(archives, checkpoints).value.first
  {
    assert archives != [] ==> archives[0] in archives;
  }

  /** Nothing at all is an accepted ledger. */
  lemma EmptyIsAccepted(h: Hmac)
    ensures Accepted(h, [], [], []) && TipOf([], [], []) == Tip(0, NoMac)
  {
  }

  /** An accepted ledger accepts one more record if and only if the record continues its tip and is authentic. */
  lemma OneMoreRecord(h: Hmac, archives: seq<Archive>, live: seq<Record>, checkpoints: seq<Checkpoint>, r: Record)
    requires Accepted(h, archives, live, checkpoints)
    ensures RetentionStart(archives, checkpoints).Some? && RetentionStart(archives, checkpoints).value.first >= 1
    ensures var tip := TipOf(archives, live, checkpoints);
      Accepted(h, archives, live + [r], checkpoints) <==>
        r.sequence == tip.sequence + 1 && r.previous == tip.mac && r.mac == h(r.Signed())
  {
    AcceptedStart(h, archives, live, checkpoints);
    var Start(first, previous) := RetentionStart(archives, checkpoints).value;
    var records := Flatten(archives) + live;
    assert Flatten(archives) + (live + [r]) == records + [r];
    LinkedConcat(h, records, [r], first, previous);
    AgreeOnMore(records, r, first, checkpoints);
    hide Contiguous;
    hide RetentionStart;
    hide Flatten;
    hide CheckpointsAgree;
  }

  lemma AgreeOnMore(records: seq<Record>, r: Record, first: nat, checkpoints: seq<Checkpoint>)
    requires CheckpointsAgree(records, first, checkpoints)
    ensures CheckpointsAgree(records + [r], first, checkpoints)
  {
  }

  /** Checkpoint `c` contradicts neither the chain nor an earlier checkpoint for its sequence. */
  ghost predicate Consents(records: seq<Record>, first: nat, checkpoints: seq<Checkpoint>, c: Checkpoint) {
    && c.sequence < first + |records|
    && (first <= c.sequence ==> c.lastMAC == records[c.sequence - first].mac)
    && (c.sequence < first ==> forall d :: d in checkpoints && d.sequence == c.sequence ==> d.lastMAC == c.lastMAC)
  }

  /** Checkpoint `c` is an anchor for the oldest archive but names another predecessor than its first record has. */
  predicate Misanchors(archives: seq<Archive>, c: Checkpoint) {
    && archives != [] && archives[0].first != 1 && archives[0].records != []
    && c.kind == RetentionMark && c.retainedFrom == archives[0].first
    && c.retainedPrevious != archives[0].records[0].previous
  }

  /**
   An accepted ledger accepts one more checkpoint if and only if it names no sequence past the
   tip, no other MAC than the chain or an earlier checkpoint has there, and no other start.
   */
  lemma OneMoreCheckpoint(
      h: Hmac, archives: seq<Archive>, live: seq<Record>, checkpoints: seq<Checkpoint>, c: Checkpoint)
    requires Accepted(h, archives, live, checkpoints)
    ensures RetentionStart(archives, checkpoints).Some?
    ensures Accepted(h, archives, live, checkpoints + [c]) <==>
      && Consents(Flatten(archives) + live, RetentionStart(archives, checkpoints).value.first, checkpoints, c)
      && !Misanchors(archives, c)
  {
    var first := RetentionStart(archives, checkpoints).value.first;
    StartWithMore(archives, checkpoints, c);
    AgreeWithMore(Flatten(archives) + live, first, checkpoints, c);
    hide CheckpointsAgree;
    hide RetentionStart;
    hide Misanchors;
    hide Consents;
    hide Contiguous;
    hide Linked;
    hide Flatten;
  }

  lemma StartWithMore(archives: seq<Archive>, checkpoints: seq<Checkpoint>, c: Checkpoint)
    requires RetentionStart(archives, checkpoints).Some?
    ensures RetentionStart(archives, checkpoints + [c]) ==
      if Misanchors(archives, c) then None else RetentionStart(archives, checkpoints)
  {
    assert (checkpoints + [c])[..|checkpoints|] == checkpoints;
  }

  lemma AgreeWithMore(records: seq<Record>, first: nat, checkpoints: seq<Checkpoint>, c: Checkpoint)
    requires CheckpointsAgree(records, first, checkpoints)
    ensures CheckpointsAgree(records, first, checkpoints + [c]) <==> Consents(records, first, checkpoints, c)
  {
    var more := checkpoints + [c];
    assert more[..|checkpoints|] == checkpoints;
    assert forall d :: d in more <==> d in checkpoints || d == c;
    assert forall q :: NewestMac(more, q) == if c.sequence == q then Some(c.lastMAC) else NewestMac(checkpoints, q);
  }

  /**
   Moving the live records of an accepted ledger to an archive is accepted if and only if the
   archive's name says exactly which sequences it holds.
   */
  lemma OneMoreArchive(h: Hmac, archives: seq<Archive>, live: seq<Record>, checkpoints: seq<Checkpoint>,
                       first: nat, last: nat)
    requires Accepted(h, archives, live, checkpoints) && live != []
    ensures Accepted(h, archives + [Archive(first, last, live)], [], checkpoints) <==>
      first == live[0].sequence && last == live[|live| - 1].sequence
  {
    var start := RetentionStart(archives, checkpoints).value;
    var a := Archive(first, last, live);
    var more := archives + [a];
    assert more[..|archives|] == archives;
    assert Flatten(more) + [] == Flatten(archives) + live;
    LiveSequences(h, Flatten(archives), live, start);
    ContiguousWithMore(archives, a, start.first);
    AcceptedStart(h, archives, live, checkpoints);
    assert more != [] && (archives != [] ==> more[0] == archives[0]);
    if archives == [] && first != 1 {
      assert live[0].sequence == 1;
      assert !Accepted(h, more, [], checkpoints);
      return;
    }
    assert RetentionStart(more, checkpoints) == RetentionStart(archives, checkpoints);
    assert NamesAllowed(more) <==> 1 <= first <= last by {
      assert forall x :: x in more <==> x in archives || x == a;
    }
    hide RetentionStart;
    hide Contiguous;
    hide Linked;
    hide Flatten;
    hide CheckpointsAgree;
    hide NamesAllowed;
  }

  lemma LiveSequences(h: Hmac, archived: seq<Record>, live: seq<Record>, start: Start)
    requires Linked(h, archived + live, start.first, start.previous) && live != []
    ensures live[0].sequence == start.first + |archived|
    ensures live[|live| - 1].sequence == start.first + |archived| + |live| - 1
  {
    LinkedConcat(h, archived, live, start.first, start.previous);
  }

  lemma ContiguousWithMore(archives: seq<Archive>, a: Archive, first: nat)
    requires Contiguous(archives, first)
    ensures Contiguous(archives + [a], first) <==>
      a.first == first + |Flatten(archives)| && a.last + 1 == a.first + |a.records|
  {
    ContiguousLength(archives, first);
    hide Flatten;
    var more := archives + [a];
    assert forall i :: 0 <= i < |archives| ==> more[i] == archives[i];
    assert more[|archives|] == a;
    if Contiguous(more, first) {
      assert more[|archives|].records == a.records && more[|archives|].first == a.first;
    }
  }
}
