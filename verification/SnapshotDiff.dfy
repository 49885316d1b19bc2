/**
 File-integrity snapshots: records spread over 256 bucket files by a digest of
 their path, and the bucket-by-bucket comparison of two snapshots.
 */
module SnapshotDiff {
  import opened Wrappers

  const BUCKET_COUNT := 256
  const MAXIMUM_BUCKET_RECORDS := 250000

  /** A lower-cased path, as its place in the byte order of all the paths compared. */
  type Key = int

  /** A path and its lower-cased form; text 0 is the empty path. */
  datatype Path = Path(text: nat, key: Key)

  /** A SHA-256 hex text of 64 characters, or a text of another length. */
  datatype Sha = Sha(id: nat) | WrongLength(id: nat)

  datatype FileRecord = FileRecord(path: Path, size: int, modified: int, sha: Sha)

  /** A bucket file; not `intact` if it is missing, cannot be read to the end, or holds a line that does not parse. */
  datatype BucketFile = BucketFile(lines: seq<FileRecord>, intact: bool)

  datatype Kind = Added | Modified | Deleted

  datatype Change = Change(kind: Kind, path: Path, oldSha: Option<Sha>, newSha: Option<Sha>, size: int, modified: int)

  type Records = map<Key, FileRecord>

  // ---------------------------------------------------------------- reading a bucket

  predicate Good(r: FileRecord) {
    r.path.text != 0 && r.sha.Sha?
  }

  predicate Readable(f: BucketFile) {
    f.intact && |f.lines| <= MAXIMUM_BUCKET_RECORDS && forall r :: r in f.lines ==> Good(r)
  }

  /** Each key with its last record. */
  function Index(lines: seq<FileRecord>): Records {
    if lines == [] then map[]
    else
      var last := lines[|lines| - 1];
      Index(lines[..|lines| - 1])[last.path.key := last]
  }

  /** A bucket is read if and only if it is readable, and then as its index. */
  method ReadBucket(f: BucketFile) returns (r: Option<Records>)
    ensures r.Some? <==> Readable(f)
    ensures r.Some? <==>
      f.intact && |f.lines| <= 250000 && forall x :: x in f.lines ==> x.path.text != 0 && x.sha.Sha?
    ensures r.Some? ==> r.value == Index(f.lines)
  {
    var records: Records := map[];
    var count := 0;
    while count < |f.lines|
      invariant 0 <= count <= |f.lines| && count <= MAXIMUM_BUCKET_RECORDS
      invariant forall i :: 0 <= i < count ==> Good(f.lines[i])
      invariant records == Index(f.lines[..count])
    {
      var record := f.lines[count];
      if count + 1 > MAXIMUM_BUCKET_RECORDS {
        return None;
      }
      if record.path.text == 0 || !record.sha.Sha? {
        assert record in f.lines && !Good(record);
        return None;
      }
      assert f.lines[..count + 1][..count] == f.lines[..count];
      records := records[record.path.key := record];
      count := count + 1;
    }
    assert f.lines[..count] == f.lines;
    return if f.intact then Some(records) else None;
  }

  /** Every record is stored under its own key. */
  ghost predicate Keyed(m: Records) {
    forall k :: k in m ==> m[k].path.key == k
  }

  lemma {:induction false} IndexKeyed(lines: seq<FileRecord>)
    ensures Keyed(Index(lines))
  {
    if lines != [] {
      IndexKeyed(lines[..|lines| - 1]);
    }
  }

  lemma IndexSnoc(lines: seq<FileRecord>, k: Key)
    requires lines != []
    ensures var last, before := lines[|lines| - 1], Index(lines[..|lines| - 1]);
      && (k in Index(lines) <==> k in before || k == last.path.key)
      && (k == last.path.key ==> Index(lines)[k] == last)
      && (k != last.path.key && k in before ==> Index(lines)[k] == before[k])
  {
  }

  ghost predicate LastOf(lines: seq<FileRecord>, k: Key, i: int) {
    0 <= i < |lines| && lines[i].path.key == k && forall j :: i < j < |lines| ==> lines[j].path.key != k
  }

  /** The index holds exactly the keys of the lines, each with the last line of that key. */
  lemma {:induction false} LastLineWins(lines: seq<FileRecord>, k: Key)
    ensures k in Index(lines) <==> exists i :: 0 <= i < |lines| && lines[i].path.key == k
    ensures k in Index(lines) ==> exists i :: LastOf(lines, k, i) && Index(lines)[k] == lines[i]
  {
    if lines != [] {
      var n := |lines| - 1;
      LastLineWins(lines[..n], k);
      hide Index;
      IndexSnoc(lines, k);
      if lines[n].path.key == k {
        assert LastOf(lines, k, n);
      } else if k in Index(lines) {
        var i :| LastOf(lines[..n], k, i) && Index(lines[..n])[k] == lines[..n][i];
        assert LastOf(lines, k, i);
      }
    }
  }

  // ---------------------------------------------------------------- writing the buckets

  /** The lines of bucket `i`, in scan order. */
  function Bucket(records: seq<FileRecord>, digest: Key -> nat, i: nat): seq<FileRecord> {
    if records == [] then []
    else
      var last := records[|records| - 1];
      var before := Bucket(records[..|records| - 1], digest, i);
      if digest(last.path.key) == i then before + [last] else before
  }

  /** Appends each scanned record to the file of its bucket. */
  method WriteBuckets(records: seq<FileRecord>, digest: Key -> nat) returns (files: seq<seq<FileRecord>>)
    requires forall k :: digest(k) < BUCKET_COUNT
    ensures |files| == BUCKET_COUNT
    ensures forall i :: 0 <= i < BUCKET_COUNT ==> files[i] == Bucket(records, digest, i)
  {
    files := seq(BUCKET_COUNT, i => []);
    var n := 0;
    while n < |records|
      invariant 0 <= n <= |records| && |files| == BUCKET_COUNT
      invariant forall i :: 0 <= i < BUCKET_COUNT ==> files[i] == Bucket(records[..n], digest, i)
    {
      var bucket := digest(records[n].path.key);
      assert records[..n + 1][..n] == records[..n];
      files := files[bucket := files[bucket] + [records[n]]];
      n := n + 1;
    }
    assert records[..n] == records;
  }

  /** Bucket `i` indexes exactly the snapshot's keys of that digest. */
  lemma {:induction false} BucketIndex(records: seq<FileRecord>, digest: Key -> nat, i: nat, k: Key)
    ensures k in Index(Bucket(records, digest, i)) <==> k in Index(records) && digest(k) == i
    ensures k in Index(records) && digest(k) == i ==> Index(Bucket(records, digest, i))[k] == Index(records)[k]
  {
    if records != [] {
      var n := |records| - 1;
      var before := Bucket(records[..n], digest, i);
      BucketIndex(records[..n], digest, i, k);
      if digest(records[n].path.key) == i {
        assert (before + [records[n]])[..|before|] == before;
      }
    }
  }

  // ---------------------------------------------------------------- the reference difference

  /** What happened to one key. */
  function ChangeAt(o: Records, n: Records, k: Key): Option<Change> {
    if k in n then
      if k !in o then Some(Change(Added, n[k].path, None, Some(n[k].sha), n[k].size, n[k].modified))
      else if o[k].sha != n[k].sha then
        Some(Change(Modified, n[k].path, Some(o[k].sha), Some(n[k].sha), n[k].size, n[k].modified))
      else None
    else if k in o then Some(Change(Deleted, o[k].path, Some(o[k].sha), None, o[k].size, o[k].modified))
    else None
  }

  ghost predicate DistinctKeys(cs: seq<Change>) {
    forall i, j :: 0 <= i < j < |cs| ==> cs[i].path.key != cs[j].path.key
  }

  ghost predicate Complete(cs: seq<Change>, o: Records, n: Records, k: Key) {
    ChangeAt(o, n, k).Some? ==> ChangeAt(o, n, k).value in cs
  }

  ghost predicate Correct(c: Change, o: Records, n: Records, keys: set<Key>) {
    c.path.key in keys && ChangeAt(o, n, c.path.key) == Some(c)
  }

  /** `cs` lists each change among `keys` exactly once and nothing else. */
  ghost predicate Lists(cs: seq<Change>, o: Records, n: Records, keys: set<Key>) {
    && DistinctKeys(cs)
    && (forall c :: c in cs ==> Correct(c, o, n, keys))
    && (forall k :: k in keys ==> Complete(cs, o, n, k))
  }

  lemma ListsExtended(cs: seq<Change>, o: Records, n: Records, keys: set<Key>, k: Key)
    requires Lists(cs, o, n, keys) && k !in keys && Keyed(o) && Keyed(n)
    ensures ChangeAt(o, n, k).None? ==> Lists(cs, o, n, keys + {k})
    ensures ChangeAt(o, n, k).Some? ==> Lists(cs + [ChangeAt(o, n, k).value], o, n, keys + {k})
  {
    var change := ChangeAt(o, n, k);
    if change.Some? {
      var more := cs + [change.value];
      assert change.value.path.key == k;
      assert change.value == more[|cs|];
      assert forall c :: c in more <==> c in cs || c == change.value;
      forall i | 0 <= i < |cs| ensures cs[i].path.key != k {
        assert cs[i] in cs;
        assert Correct(cs[i], o, n, keys);
      }
    }
  }

  lemma ListsJoined(cs: seq<Change>, more: seq<Change>, o: Records, n: Records, keys: set<Key>, others: set<Key>)
    requires Lists(cs, o, n, keys) && Lists(more, o, n, others) && keys !! others
    ensures Lists(cs + more, o, n, keys + others)
  {
    hide ChangeAt;
    forall i, j | 0 <= i < |cs| && 0 <= j < |more| ensures cs[i].path.key != more[j].path.key {
      assert Correct(cs[i], o, n, keys) by { assert cs[i] in cs; }
      assert Correct(more[j], o, n, others) by { assert more[j] in more; }
    }
    assert forall c :: c in cs + more <==> c in cs || c in more;
    forall k | k in keys + others ensures Complete(cs + more, o, n, k) {
      assert Complete(cs, o, n, k) || Complete(more, o, n, k);
    }
    forall c | c in cs + more ensures Correct(c, o, n, keys + others) {
      assert Correct(c, o, n, keys) || Correct(c, o, n, others);
    }
  }

  lemma ListsSameMaps(cs: seq<Change>, o: Records, n: Records, o': Records, n': Records, keys: set<Key>)
    requires Lists(cs, o, n, keys)
    requires forall k :: k in keys ==> ChangeAt(o, n, k) == ChangeAt(o', n', k)
    ensures Lists(cs, o', n', keys)
  {
    hide ChangeAt;
    forall c | c in cs ensures Correct(c, o', n', keys) {
      assert Correct(c, o, n, keys);
    }
    forall k | k in keys ensures Complete(cs, o', n', k) {
      assert Complete(cs, o, n, k);
    }
  }

  // ---------------------------------------------------------------- counting and sorting

  function Tally(cs: seq<Change>, kind: Kind): nat {
    if cs == [] then 0
    else Tally(cs[..|cs| - 1], kind) + if cs[|cs| - 1].kind == kind then 1 else 0
  }

  lemma TallyPush(cs: seq<Change>, c: Change, kind: Kind)
    ensures Tally(cs + [c], kind) == Tally(cs, kind) + if c.kind == kind then 1 else 0
  {
    assert (cs + [c])[..|cs|] == cs;
  }

  lemma {:induction false} TallyConcat(cs: seq<Change>, more: seq<Change>, kind: Kind)
    ensures Tally(cs + more, kind) == Tally(cs, kind) + Tally(more, kind)
  {
    if more == [] {
      assert cs + more == cs;
    } else {
      var m := |more| - 1;
      TallyConcat(cs, more[..m], kind);
      assert cs + more == (cs + more[..m]) + [more[m]];
      TallyPush(cs + more[..m], more[m], kind);
    }
  }

  /** Each change is of exactly one kind. */
  lemma {:induction false} TallyTotal(cs: seq<Change>)
    ensures Tally(cs, Added) + Tally(cs, Modified) + Tally(cs, Deleted) == |cs|
  {
    if cs != [] {
      TallyTotal(cs[..|cs| - 1]);
    }
  }

  ghost predicate Increasing(cs: seq<Change>) {
    forall i, j :: 0 <= i < j < |cs| ==> cs[i].path.key < cs[j].path.key
  }

  function Insert(cs: seq<Change>, c: Change): seq<Change> {
    if cs == [] then [c]
    else
      var m := |cs| - 1;
      if c.path.key < cs[m].path.key then Insert(cs[..m], c) + [cs[m]] else cs + [c]
  }

  /** The changes ordered by lower-cased path. */
  function Sorted(cs: seq<Change>): seq<Change> {
    if cs == [] then [] else Insert(Sorted(cs[..|cs| - 1]), cs[|cs| - 1])
  }

  lemma {:induction false} InsertMembers(cs: seq<Change>, c: Change, x: Change)
    ensures x in Insert(cs, c) <==> x in cs || x == c
  {
    if cs != [] {
      var m := |cs| - 1;
      InsertMembers(cs[..m], c, x);
      assert cs == cs[..m] + [cs[m]];
    }
  }

  lemma {:induction false} InsertTally(cs: seq<Change>, c: Change, kind: Kind)
    ensures Tally(Insert(cs, c), kind) == Tally(cs, kind) + if c.kind == kind then 1 else 0
  {
    if cs != [] && c.path.key < cs[|cs| - 1].path.key {
      var m := |cs| - 1;
      InsertTally(cs[..m], c, kind);
      TallyPush(Insert(cs[..m], c), cs[m], kind);
    } else {
      TallyPush(cs, c, kind);
      assert cs == [] ==> cs + [c] == [c];
    }
  }

  lemma {:induction false} InsertIncreasing(cs: seq<Change>, c: Change)
    requires Increasing(cs) && forall i :: 0 <= i < |cs| ==> cs[i].path.key != c.path.key
    ensures Increasing(Insert(cs, c))
  {
    if cs != [] {
      var m := |cs| - 1;
      if c.path.key < cs[m].path.key {
        InsertIncreasing(cs[..m], c);
        var front := Insert(cs[..m], c);
        forall i | 0 <= i < |front| ensures front[i].path.key < cs[m].path.key {
          InsertMembers(cs[..m], c, front[i]);
        }
      }
    }
  }

  lemma {:induction false} SortedMembers(cs: seq<Change>, x: Change)
    ensures x in Sorted(cs) <==> x in cs
  {
    if cs != [] {
      var m := |cs| - 1;
      SortedMembers(cs[..m], x);
      InsertMembers(Sorted(cs[..m]), cs[m], x);
      assert cs == cs[..m] + [cs[m]];
    }
  }

  lemma {:induction false} SortedTally(cs: seq<Change>, kind: Kind)
    ensures Tally(Sorted(cs), kind) == Tally(cs, kind)
  {
    if cs != [] {
      var m := |cs| - 1;
      SortedTally(cs[..m], kind);
      InsertTally(Sorted(cs[..m]), cs[m], kind);
    }
  }

  lemma {:induction false} SortedIncreasing(cs: seq<Change>)
    requires DistinctKeys(cs)
    ensures Increasing(Sorted(cs))
  {
    if cs != [] {
      var m := |cs| - 1;
      SortedIncreasing(cs[..m]);
      var front := Sorted(cs[..m]);
      forall i | 0 <= i < |front| ensures front[i].path.key != cs[m].path.key {
        SortedMembers(cs[..m], front[i]);
      }
      InsertIncreasing(front, cs[m]);
    }
  }

  lemma SortedLists(cs: seq<Change>, o: Records, n: Records, keys: set<Key>)
    requires Lists(cs, o, n, keys)
    ensures Lists(Sorted(cs), o, n, keys) && Increasing(Sorted(cs))
  {
    hide ChangeAt;
    hide Sorted;
    SortedIncreasing(cs);
    forall x ensures x in Sorted(cs) <==> x in cs {
      SortedMembers(cs, x);
    }
    forall k | k in keys ensures Complete(Sorted(cs), o, n, k) {
      assert Complete(cs, o, n, k);
    }
  }

  // ---------------------------------------------------------------- what a complete list is good for

  /** Replays changes on a path-to-hash map. */
  function Replay(m: map<Key, Sha>, cs: seq<Change>): map<Key, Sha> {
    if cs == [] then m
    else
      var c := cs[|cs| - 1];
      var before := Replay(m, cs[..|cs| - 1]);
      match c.newSha
      case Some(sha) => before[c.path.key := sha]
      case None => before - {c.path.key}
  }

  function Hashes(m: Records): map<Key, Sha> {
    map k | k in m :: m[k].sha
  }

  lemma {:induction false} ReplayUntouched(m: map<Key, Sha>, cs: seq<Change>, k: Key)
    requires forall c :: c in cs ==> c.path.key != k
    ensures k in Replay(m, cs) <==> k in m
    ensures k in m ==> Replay(m, cs)[k] == m[k]
  {
    if cs != [] {
      var last := cs[|cs| - 1];
      assert last in cs;
      ReplayUntouched(m, cs[..|cs| - 1], k);
    }
  }

  lemma {:induction false} ReplayTouched(m: map<Key, Sha>, cs: seq<Change>, i: nat)
    requires i < |cs| && DistinctKeys(cs)
    ensures cs[i].newSha.None? <==> cs[i].path.key !in Replay(m, cs)
    ensures cs[i].newSha.Some? ==> Replay(m, cs)[cs[i].path.key] == cs[i].newSha.value
  {
    var n := |cs| - 1;
    if i < n {
      ReplayTouched(m, cs[..n], i);
    }
  }

  /** Replaying the listed changes on the old hashes gives the new ones. */
  lemma ReplayGivesNew(cs: seq<Change>, o: Records, n: Records)
    requires Keyed(o) && Keyed(n) && Lists(cs, o, n, o.Keys + n.Keys)
    ensures Replay(Hashes(o), cs) == Hashes(n)
  {
    forall k ensures k in Replay(Hashes(o), cs) <==> k in n
      ensures k in n ==> k in Replay(Hashes(o), cs) && Replay(Hashes(o), cs)[k] == n[k].sha
    {
      ReplayAt(cs, o, n, k);
    }
  }

  lemma ReplayAt(cs: seq<Change>, o: Records, n: Records, k: Key)
    requires Keyed(o) && Keyed(n) && Lists(cs, o, n, o.Keys + n.Keys)
    ensures k in Replay(Hashes(o), cs) <==> k in n
    ensures k in n ==> Replay(Hashes(o), cs)[k] == n[k].sha
  {
    hide Replay;
    var change := ChangeAt(o, n, k);
    if change.Some? {
      assert Complete(cs, o, n, k);
      var i :| 0 <= i < |cs| && cs[i] == change.value;
      assert cs[i].path.key == k;
      ReplayTouched(Hashes(o), cs, i);
    } else {
      forall c | c in cs ensures c.path.key != k {
        assert Correct(c, o, n, o.Keys + n.Keys);
      }
      ReplayUntouched(Hashes(o), cs, k);
    }
  }

  function HashAt(m: Records, k: Key): Option<Sha> {
    if k in m then Some(m[k].sha) else None
  }

  /** A change says what became of its path: both hashes, which differ, and the file as last seen. */
  ghost predicate Tells(c: Change, o: Records, n: Records) {
    var k := c.path.key;
    && c.oldSha == HashAt(o, k) && c.newSha == HashAt(n, k) && c.oldSha != c.newSha
    && (c.kind == Added <==> k !in o) && (c.kind == Deleted <==> k !in n)
    && (k in n ==> c.path == n[k].path && c.size == n[k].size && c.modified == n[k].modified)
    && (k !in n && k in o ==> c.path == o[k].path && c.size == o[k].size && c.modified == o[k].modified)
  }

  ghost predicate Listed(cs: seq<Change>, k: Key) {
    exists c :: c in cs && c.path.key == k
  }

  lemma ChangeTells(o: Records, n: Records, k: Key)
    requires Keyed(o) && Keyed(n)
    ensures ChangeAt(o, n, k).Some? <==> HashAt(o, k) != HashAt(n, k)
    ensures ChangeAt(o, n, k).Some? ==> Tells(ChangeAt(o, n, k).value, o, n) && ChangeAt(o, n, k).value.path.key == k
  {
  }

  /** A path is listed if and only if its hash differs, and every listed change tells what became of its path. */
  lemma ListedIffDiffers(cs: seq<Change>, o: Records, n: Records)
    requires Keyed(o) && Keyed(n) && Lists(cs, o, n, o.Keys + n.Keys)
    ensures forall c :: c in cs ==> Tells(c, o, n)
    ensures forall k :: Listed(cs, k) <==> HashAt(o, k) != HashAt(n, k)
  {
    hide ChangeAt;
    hide Tells;
    forall c | c in cs ensures Tells(c, o, n) && HashAt(o, c.path.key) != HashAt(n, c.path.key) {
      assert Correct(c, o, n, o.Keys + n.Keys);
      ChangeTells(o, n, c.path.key);
    }
    forall k | HashAt(o, k) != HashAt(n, k) ensures Listed(cs, k) {
      ChangeTells(o, n, k);
      assert Complete(cs, o, n, k);
    }
  }

  /** The changes taken back. */
  function Undone(cs: seq<Change>): (r: seq<Change>)
    ensures |r| == |cs|
    ensures forall i :: 0 <= i < |cs| ==> r[i] == cs[i].(oldSha := cs[i].newSha, newSha := cs[i].oldSha)
  {
    seq(|cs|, i requires 0 <= i < |cs| => cs[i].(oldSha := cs[i].newSha, newSha := cs[i].oldSha))
  }

  lemma UndoneAt(cs: seq<Change>, o: Records, n: Records, k: Key)
    requires DistinctKeys(cs) && (forall c :: c in cs ==> Tells(c, o, n))
    requires Listed(cs, k) <==> HashAt(o, k) != HashAt(n, k)
    ensures k in Replay(Hashes(n), Undone(cs)) <==> k in o
    ensures k in o ==> Replay(Hashes(n), Undone(cs))[k] == o[k].sha
  {
    hide Replay;
    var back := Undone(cs);
    if Listed(cs, k) {
      var i :| 0 <= i < |cs| && cs[i].path.key == k;
      assert cs[i] in cs && back[i].path.key == k;
      ReplayTouched(Hashes(n), back, i);
    } else {
      forall c | c in back ensures c.path.key != k {
        var i :| 0 <= i < |back| && back[i] == c;
        assert cs[i] in cs;
      }
      ReplayUntouched(Hashes(n), back, k);
    }
  }

  /** The list can be taken back: undoing it on the new hashes gives the old ones. */
  lemma UndoGivesOld(cs: seq<Change>, o: Records, n: Records)
    requires Keyed(o) && Keyed(n) && Lists(cs, o, n, o.Keys + n.Keys)
    ensures Replay(Hashes(n), Undone(cs)) == Hashes(o)
  {
    ListedIffDiffers(cs, o, n);
    hide Tells;
    hide Listed;
    hide Correct;
    forall k ensures k in Replay(Hashes(n), Undone(cs)) <==> k in o
      ensures k in o ==> k in Replay(Hashes(n), Undone(cs)) && Replay(Hashes(n), Undone(cs))[k] == o[k].sha
    {
      UndoneAt(cs, o, n, k);
    }
  }

  lemma {:induction false} ReplaySize(cs: seq<Change>, o: Records, n: Records, keys: set<Key>)
    requires DistinctKeys(cs) && forall c :: c in cs ==> Correct(c, o, n, keys)
    ensures |Replay(Hashes(o), cs)| == |o| + Tally(cs, Added) - Tally(cs, Deleted)
  {
    if cs == [] {
      assert Hashes(o).Keys == o.Keys;
      assert |Hashes(o)| == |Hashes(o).Keys| && |o| == |o.Keys|;
    } else {
      var m := |cs| - 1;
      var c := cs[m];
      var front := cs[..m];
      ReplaySize(front, o, n, keys);
      assert Correct(c, o, n, keys);
      forall x | x in front ensures x.path.key != c.path.key {
        var i :| 0 <= i < m && cs[i] == x;
      }
      ReplayUntouched(Hashes(o), front, c.path.key);
      StepSize(Replay(Hashes(o), front), c.path.key, c.newSha);
    }
  }

  lemma StepSize(m: map<Key, Sha>, k: Key, sha: Option<Sha>)
    ensures sha.Some? ==> |m[k := sha.value]| == |m| + if k in m then 0 else 1
    ensures |m - {k}| == |m| - if k in m then 1 else 0
  {
    assert (m - {k}).Keys == m.Keys - {k};
    assert |m - {k}| == |(m - {k}).Keys| && |m| == |m.Keys|;
    if sha.Some? {
      assert m[k := sha.value].Keys == m.Keys + {k};
      assert |m[k := sha.value]| == |m[k := sha.value].Keys|;
    }
  }

  /** The new size is the old size plus the additions less the deletions. */
  lemma SizeConserved(cs: seq<Change>, o: Records, n: Records)
    requires Keyed(o) && Keyed(n) && Lists(cs, o, n, o.Keys + n.Keys)
    ensures |n| == |o| + Tally(cs, Added) - Tally(cs, Deleted)
  {
    ReplaySize(cs, o, n, o.Keys + n.Keys);
    ReplayGivesNew(cs, o, n);
    assert Hashes(n).Keys == n.Keys;
    assert |Hashes(n)| == |Hashes(n).Keys| && |n| == |n.Keys|;
  }

  /** By bucket, and by lower-cased path within a bucket. */
  ghost predicate Ordered(cs: seq<Change>, digest: Key -> nat) {
    forall i, j :: 0 <= i < j < |cs| ==> Before(cs[i].path.key, cs[j].path.key, digest)
  }

  predicate Before(k: Key, l: Key, digest: Key -> nat) {
    digest(k) < digest(l) || (digest(k) == digest(l) && k < l)
  }

  /** The order of map iteration leaves no trace: an ordered list of the same changes is the same list. */
  lemma {:induction false} OrderedUnique(a: seq<Change>, b: seq<Change>, digest: Key -> nat)
    requires Ordered(a, digest) && Ordered(b, digest) && forall x :: x in a <==> x in b
    ensures a == b
  {
    if a == [] || b == [] {
      SameEmpty(a, b);
    } else {
      var m := |a| - 1;
      assert a[m] in b;
      var p := |b| - 1;
      assert b[p] in a;
      assert a[m] == b[p];
      forall x ensures x in a[..m] <==> x in b[..p] {
        FrontMembers(a, digest, x);
        FrontMembers(b, digest, x);
      }
      OrderedUnique(a[..m], b[..p], digest);
      assert a == a[..m] + [a[m]] && b == b[..p] + [b[p]];
    }
  }

  lemma SameEmpty(a: seq<Change>, b: seq<Change>)
    requires forall x :: x in a <==> x in b
    ensures a == [] <==> b == []
  {
    if a != [] {
      assert a[0] in b;
    }
    if b != [] {
      assert b[0] in a;
    }
  }

  lemma FrontMembers(a: seq<Change>, digest: Key -> nat, x: Change)
    requires a != [] && Ordered(a, digest)
    ensures x in a[..|a| - 1] <==> x in a && x != a[|a| - 1]
  {
  }

  lemma ListsMembers(a: seq<Change>, b: seq<Change>, o: Records, n: Records, keys: set<Key>)
    requires Lists(a, o, n, keys) && Lists(b, o, n, keys)
    ensures forall x :: x in a <==> x in b
  {
    hide ChangeAt;
    forall x | x in a || x in b ensures x in a && x in b {
      assert Correct(x, o, n, keys);
      assert Complete(a, o, n, x.path.key) && Complete(b, o, n, x.path.key);
    }
  }
}
