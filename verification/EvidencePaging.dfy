/**
 Newest-first paging over the live file and the archives. Each file is read
 backwards; skipped records are counted across file boundaries.
 */
module EvidencePaging {
  import opened EvidenceChain
  import opened EvidenceDisk

  const MAX_PAGE_LIMIT := 100
  const MAX_PAGE_OFFSET := 50000

  function Reversed<T>(s: seq<T>): (r: seq<T>)
    ensures |r| == |s|
    ensures forall i :: 0 <= i < |s| ==> r[i] == s[|s| - 1 - i]
  {
    if s == [] then [] else [s[|s| - 1]] + Reversed(s[..|s| - 1])
  }

  /** Up to `limit` elements of `s` after the first `offset`. */
  function Slice<T>(s: seq<T>, offset: nat, limit: nat): seq<T> {
    if offset >= |s| then [] else if offset + limit >= |s| then s[offset..] else s[offset..offset + limit]
  }

  /** The newest `limit` records of a file, newest first. */
  function ReadNewest(file: seq<Record>, limit: nat): seq<Record> {
    Slice(Reversed(file), 0, limit)
  }

  /** All records of files listed newest first, newest record first. */
  function NewestFirst(files: seq<seq<Record>>): seq<Record> {
    if files == [] then [] else NewestFirst(files[..|files| - 1]) + Reversed(files[|files| - 1])
  }

  /** The files in the order paging opens them: the live file, then the archives from the newest. */
  function FilesNewestFirst(d: Disk): seq<seq<Record>> {
    [d.live] + seq(|d.archives|, i requires 0 <= i < |d.archives| => d.archives[|d.archives| - 1 - i].records)
  }

  /** Copies the wanted part of one file's lines, counting down what is still to skip and to fetch. */
  method TakeLines(lines: seq<Record>, skip0: nat, need0: nat) returns (taken: seq<Record>, skip: nat, need: nat)
    requires need0 > 0
    ensures taken == Slice(lines, skip0, need0)
    ensures skip == (if skip0 > |lines| then skip0 - |lines| else 0)
    ensures need == need0 - |taken|
  {
    taken, skip, need := [], skip0, need0;
    var i := 0;
    while i < |lines| && need > 0
      invariant i <= |lines|
      invariant skip == if skip0 > i then skip0 - i else 0
      invariant need == need0 - |taken|
      invariant taken == if i <= skip0 then [] else lines[skip0..i]
    {
      if skip > 0 {
        skip := skip - 1;
      } else {
        taken := taken + [lines[i]];
        need := need - 1;
      }
      i := i + 1;
    }
  }

  lemma SliceOfPrefix<T>(s: seq<T>, a: nat, b: nat)
    ensures Slice(Slice(s, 0, a + b), a, b) == Slice(s, a, b)
  {
  }

  lemma SliceConcat<T>(a: seq<T>, b: seq<T>, offset: nat, limit: nat)
    ensures var first := Slice(a, offset, limit);
      Slice(a + b, offset, limit) ==
        first + Slice(b, if offset > |a| then offset - |a| else 0, limit - |first|)
  {
  }

  /** Paging across files returns exactly the requested slice of all records, newest first. */
  method NewestRecords(files: seq<seq<Record>>, limit: nat, offset: nat) returns (items: seq<Record>)
    requires limit > 0
    ensures items == Slice(NewestFirst(files), offset, limit)
  {
    var skip, need := offset, limit;
    items := [];
    var k := 0;
    while k < |files| && need > 0
      invariant k <= |files|
      invariant items == Slice(NewestFirst(files[..k]), offset, limit)
      invariant need == limit - |items|
      invariant need > 0 ==>
        skip == if offset > |NewestFirst(files[..k])| then offset - |NewestFirst(files[..k])| else 0
    {
      var lines := ReadNewest(files[k], skip + need);
      var taken;
      ghost var done := NewestFirst(files[..k]);
      ghost var skip0, need0 := skip, need;
      taken, skip, need := TakeLines(lines, skip, need);
      SliceOfPrefix(Reversed(files[k]), skip0, need0);
      SliceConcat(done, Reversed(files[k]), offset, limit);
      assert files[..k + 1][..k] == files[..k];
      items := items + taken;
      k := k + 1;
    }
    StopEarly(files, k, offset, limit);
  }

  /** Once a page is full, older files cannot change it. */
  lemma {:induction false} StopEarly(files: seq<seq<Record>>, k: nat, offset: nat, limit: nat)
    requires k <= |files|
    requires k == |files| || |Slice(NewestFirst(files[..k]), offset, limit)| == limit
    ensures Slice(NewestFirst(files), offset, limit) == Slice(NewestFirst(files[..k]), offset, limit)
    decreases |files|
  {
    if k == |files| {
      assert files[..k] == files;
    } else {
      var rest := files[..|files| - 1];
      assert rest[..k] == files[..k];
      StopEarly(rest, k, offset, limit);
      SliceConcat(NewestFirst(rest), Reversed(files[|files| - 1]), offset, limit);
    }
  }

  lemma ReversedConcat<T>(a: seq<T>, b: seq<T>)
    ensures Reversed(a + b) == Reversed(b) + Reversed(a)
  {
  }

  lemma FilesLast(d: Disk)
    requires d.archives != []
    ensures var files := FilesNewestFirst(d);
      && files != [] && files[|files| - 1] == d.archives[0].records
      && files[..|files| - 1] == FilesNewestFirst(d.(archives := d.archives[1..]))
  {
  }

  lemma RecordsFirst(d: Disk)
    requires d.archives != []
    ensures Records(d) == d.archives[0].records + Records(d.(archives := d.archives[1..]))
  {
    PruneRecords(d.archives);
    hide Flatten;
  }

  lemma NewestLast(files: seq<seq<Record>>)
    requires files != []
    ensures NewestFirst(files) == NewestFirst(files[..|files| - 1]) + Reversed(files[|files| - 1])
  {
  }

  lemma LiveOnly(d: Disk)
    requires d.archives == []
    ensures NewestFirst(FilesNewestFirst(d)) == Reversed(Records(d))
  {
    var files := FilesNewestFirst(d);
    assert files == [d.live] && files[..0] == [];
    assert Records(d) == d.live;
  }

  /** The files paging opens, one after the other, hold the whole chain reversed. */
  lemma {:induction false} FilesCoverChain(d: Disk)
    ensures NewestFirst(FilesNewestFirst(d)) == Reversed(Records(d))
    decreases |d.archives|
  {
    hide *;
    if d.archives == [] {
      LiveOnly(d);
    } else {
      var d' := d.(archives := d.archives[1..]);
      FilesLast(d);
      NewestLast(FilesNewestFirst(d));
      FilesCoverChain(d');
      RecordsFirst(d);
      ReversedConcat(d.archives[0].records, Records(d'));
    }
  }

  /** A page of a ledger: the slice of the whole retained chain, newest first. */
  function PageOf(d: Disk, limit: nat, offset: nat): seq<Record> {
    Slice(NewestFirst(FilesNewestFirst(d)), offset, limit)
  }

  /**
   On every ledger a run can produce, page item `i` is the record with sequence
   tip − offset − i, and a page is as long as the limit and the retained window allow.
   */
  lemma PageItems(h: Hmac, w: World, limit: nat, offset: nat)
    requires Invariant(h, w)
    ensures var page, total := PageOf(w.disk, limit, offset), |Records(w.disk)|;
      && |page| == (if offset >= total then 0 else if offset + limit >= total then total - offset else limit)
      && total == |w.history| + 1 - First(w.disk.archives)
      && forall i :: 0 <= i < |page| ==>
           && page[i].sequence == |w.history| - offset - i
           && page[i].mac == w.history[|w.history| - offset - i - 1]
  {
    hide Linked;
    hide StoreInvariant;
    hide Contiguous;
    hide Flatten;
    var records, page := Records(w.disk), PageOf(w.disk, limit, offset);
    FilesCoverChain(w.disk);
    forall i | 0 <= i < |page|
      ensures page[i].sequence == |w.history| - offset - i
      ensures page[i].mac == w.history[|w.history| - offset - i - 1]
    {
      var k := |records| - 1 - offset - i;
      assert page[i] == Reversed(records)[offset + i] == records[k];
      TracksAt(h, records, First(w.disk.archives), w.history, k);
    }
  }

  /** Consecutive pages tile the history: no gap, no overlap. */
  lemma PagesTile(d: Disk, offset: nat, limit: nat, more: nat)
    ensures PageOf(d, limit, offset) + PageOf(d, more, offset + limit) == PageOf(d, limit + more, offset)
  {
  }

  /** Pages from the newest record on, `limit` at a time. */
  function Tiled(d: Disk, limit: nat, pages: nat): seq<Record> {
    if pages == 0 then [] else Tiled(d, limit, pages - 1) + PageOf(d, limit, (pages - 1) * limit)
  }

  /** Enough pages, concatenated, are the whole retained chain reversed. */
  lemma {:induction false} PagesCoverHistory(d: Disk, limit: nat, pages: nat)
    ensures Tiled(d, limit, pages) == PageOf(d, pages * limit, 0)
    ensures pages * limit >= |Records(d)| ==> Tiled(d, limit, pages) == Reversed(Records(d))
  {
    hide *;
    WholePage(d, pages * limit);
    TiledStep(d, limit, pages);
    if pages > 0 {
      PagesCoverHistory(d, limit, pages - 1);
      OnePageMore(limit, pages);
      PagesTile(d, 0, (pages - 1) * limit, limit);
    }
  }

  lemma OnePageMore(limit: nat, pages: nat)
    requires pages > 0
    ensures 0 <= (pages - 1) * limit && pages * limit == (pages - 1) * limit + limit
  {
  }

  lemma TiledStep(d: Disk, limit: nat, pages: nat)
    ensures pages == 0 ==> Tiled(d, limit, pages) == [] == PageOf(d, 0, 0) && pages * limit == 0
    ensures pages > 0 ==>
      Tiled(d, limit, pages) == Tiled(d, limit, pages - 1) + PageOf(d, limit, (pages - 1) * limit)
  {
    hide NewestFirst;
    hide FilesNewestFirst;
  }

  /** A page long enough is the whole retained chain reversed. */
  lemma WholePage(d: Disk, limit: nat)
    ensures limit >= |Records(d)| ==> PageOf(d, limit, 0) == Reversed(Records(d))
  {
    hide Flatten;
    hide FilesNewestFirst;
    hide NewestFirst;
    FilesCoverChain(d);
  }
}
