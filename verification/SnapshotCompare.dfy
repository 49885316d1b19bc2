/** The comparison of a snapshot with the previous one, one bucket at a time. */
module SnapshotCompare {
  import opened Wrappers
  import opened SnapshotDiff

  /** The previous snapshot: none yet, or its bucket files and whether they authenticate. */
  datatype Previous = NoPrevious | Snapshot(authentic: bool, files: seq<BucketFile>)

  datatype Report = Report(added: nat, modified: nat, deleted: nat, stored: nat, changes: seq<Change>)

  const EMPTY_REPORT := Report(0, 0, 0, 0, [])

  ghost predicate Counts(r: Report) {
    && r.added == Tally(r.changes, Added) && r.modified == Tally(r.changes, Modified)
    && r.deleted == Tally(r.changes, Deleted) && r.stored == |r.changes|
  }

  /** `cs` lists the changes among `keys`, and the counters count them. */
  ghost predicate Progress(r: Report, o: Records, n: Records, keys: set<Key>) {
    Lists(r.changes, o, n, keys) && Counts(r)
  }

  /** Compares two buckets, deleting from the old map what the new one holds; maps are visited in any order. */
  method CompareBucket(oldRecords: Records, newRecords: Records) returns (r: Report)
    requires Keyed(oldRecords) && Keyed(newRecords)
    ensures Progress(r, oldRecords, newRecords, newRecords.Keys + oldRecords.Keys)
    ensures Increasing(r.changes)
  {
    hide *;
    var added, modified, visited, remaining := VisitNew(oldRecords, newRecords);
    var deleted, changes := VisitOld(oldRecords, newRecords, remaining, added, modified, visited);
    ProgressSorted(added, modified, deleted, changes, oldRecords, newRecords, newRecords.Keys + oldRecords.Keys);
    r := Report(added, modified, deleted, |Sorted(changes)|, Sorted(changes));
  }

  /** The old records whose key is not among the new ones. */
  ghost predicate Unmatched(remaining: Records, o: Records, n: Records) {
    remaining == o - n.Keys
  }

  /** Visits the old records left over: each of them is deleted. */
  method VisitOld(oldRecords: Records, newRecords: Records, remaining: Records, added: nat, modified: nat,
      visited: seq<Change>)
    returns (deleted: nat, changes: seq<Change>)
    requires Keyed(oldRecords) && Keyed(newRecords) && Unmatched(remaining, oldRecords, newRecords)
    requires Progress(Report(added, modified, 0, |visited|, visited), oldRecords, newRecords, newRecords.Keys)
    ensures Progress(Report(added, modified, deleted, |changes|, changes), oldRecords, newRecords,
      newRecords.Keys + oldRecords.Keys)
  {
    hide Progress;
    hide Lists;
    hide Counts;
    hide Keyed;
    hide Unmatched;
    hide ChangeAt;
    hide Partition;
    hide Counted;
    deleted, changes := 0, visited;
    var left := remaining.Keys;
    ghost var done := newRecords.Keys;
    Leftover(oldRecords, newRecords, remaining);
    while left != {}
      invariant Partition(done, left, newRecords.Keys + oldRecords.Keys, remaining.Keys)
      invariant Progress(Report(added, modified, deleted, |changes|, changes), oldRecords, newRecords, done)
      decreases |left|
    {
      var k := Pick(left);
      MoveKey(done, left, newRecords.Keys + oldRecords.Keys, remaining.Keys, k);
      var gone := remaining[k];
      var change := Change(Deleted, gone.path, Some(gone.sha), None, gone.size, gone.modified);
      DeletedAt(oldRecords, newRecords, remaining, k);
      ProgressDeleted(added, modified, deleted, changes, oldRecords, newRecords, done, k, change);
      deleted := deleted + 1;
      changes := changes + [change];
      left, done := left - {k}, done + {k};
    }
    AllMoved(done, newRecords.Keys + oldRecords.Keys, remaining.Keys);
  }

  lemma ProgressDeleted(added: nat, modified: nat, deleted: nat, cs: seq<Change>, o: Records, n: Records,
      keys: set<Key>, k: Key, c: Change)
    requires Progress(Report(added, modified, deleted, |cs|, cs), o, n, keys) && k !in keys && Keyed(o) && Keyed(n)
    requires ChangeAt(o, n, k) == Some(c) && c.kind == Deleted
    ensures Progress(Report(added, modified, deleted + 1, |cs + [c]|, cs + [c]), o, n, keys + {k})
  {
    hide Progress;
    hide Keyed;
    hide ChangeAt;
    ProgressChange(Report(added, modified, deleted, |cs|, cs), o, n, keys, k, c);
  }

  /** The next key of a map iteration, which may be any. */
  method Pick<T>(keys: set<T>) returns (k: T)
    requires keys != {}
    ensures k in keys
  {
    k :| k in keys;
  }

  /** `left` and `done` divide `all`, and what is left lies in `within`. */
  ghost predicate Partition(done: set<Key>, left: set<Key>, all: set<Key>, within: set<Key>) {
    done !! left && done + left == all && left <= within
  }

  lemma MoveKey(done: set<Key>, left: set<Key>, all: set<Key>, within: set<Key>, k: Key)
    requires Partition(done, left, all, within) && k in left
    ensures Partition(done + {k}, left - {k}, all, within) && k !in done && k in within && |left - {k}| < |left|
  {
  }

  lemma AllMoved(done: set<Key>, all: set<Key>, within: set<Key>)
    requires Partition(done, {}, all, within)
    ensures done == all
  {
  }

  lemma Leftover(o: Records, n: Records, remaining: Records)
    requires Unmatched(remaining, o, n)
    ensures Partition(n.Keys, remaining.Keys, n.Keys + o.Keys, remaining.Keys)
  {
  }

  lemma DeletedAt(o: Records, n: Records, remaining: Records, k: Key)
    requires Unmatched(remaining, o, n) && k in remaining
    ensures var r := remaining[k];
      ChangeAt(o, n, k) == Some(Change(Deleted, r.path, Some(r.sha), None, r.size, r.modified))
  {
  }

  /** A visited key with its change. */
  lemma ProgressChange(r: Report, o: Records, n: Records, keys: set<Key>, k: Key, c: Change)
    requires Progress(r, o, n, keys) && k !in keys && Keyed(o) && Keyed(n) && ChangeAt(o, n, k) == Some(c)
    ensures Progress(Counted(r, c), o, n, keys + {k})
  {
    hide Lists;
    hide ChangeAt;
    hide Counts;
    ListsExtended(r.changes, o, n, keys, k);
    CountPush(r, c);
  }

  /** A visited key without one. */
  lemma ProgressNone(r: Report, o: Records, n: Records, keys: set<Key>, k: Key)
    requires Progress(r, o, n, keys) && k !in keys && Keyed(o) && Keyed(n) && ChangeAt(o, n, k) == None
    ensures Progress(r, o, n, keys + {k})
  {
    hide Lists;
    hide ChangeAt;
    hide Counts;
    ListsExtended(r.changes, o, n, keys, k);
  }

  lemma ProgressSorted(added: nat, modified: nat, deleted: nat, cs: seq<Change>, o: Records, n: Records, keys: set<Key>)
    requires Progress(Report(added, modified, deleted, |cs|, cs), o, n, keys)
    ensures Progress(Report(added, modified, deleted, |Sorted(cs)|, Sorted(cs)), o, n, keys) && Increasing(Sorted(cs))
  {
    hide Lists;
    hide Counts;
    hide Sorted;
    SortedLists(cs, o, n, keys);
    CountSorted(added, modified, deleted, cs);
  }

  /** The counters after one more change. */
  function Counted(r: Report, c: Change): Report {
    match c.kind
    case Added => Report(r.added + 1, r.modified, r.deleted, |r.changes + [c]|, r.changes + [c])
    case Modified => Report(r.added, r.modified + 1, r.deleted, |r.changes + [c]|, r.changes + [c])
    case Deleted => Report(r.added, r.modified, r.deleted + 1, |r.changes + [c]|, r.changes + [c])
  }

  lemma CountPush(r: Report, c: Change)
    requires Counts(r)
    ensures Counts(Counted(r, c))
  {
    hide Tally;
    TallyPush(r.changes, c, Added);
    TallyPush(r.changes, c, Modified);
    TallyPush(r.changes, c, Deleted);
  }

  lemma CountSorted(added: nat, modified: nat, deleted: nat, cs: seq<Change>)
    requires Counts(Report(added, modified, deleted, |cs|, cs))
    ensures Counts(Report(added, modified, deleted, |Sorted(cs)|, Sorted(cs)))
  {
    hide Tally;
    hide Sorted;
    SortedTally(cs, Added);
    SortedTally(cs, Modified);
    SortedTally(cs, Deleted);
  }

  /** Visits the new records: what they add or modify, and the old records they leave unmatched. */
  method VisitNew(oldRecords: Records, newRecords: Records)
    returns (added: nat, modified: nat, changes: seq<Change>, remaining: Records)
    requires Keyed(oldRecords) && Keyed(newRecords)
    ensures Progress(Report(added, modified, 0, |changes|, changes), oldRecords, newRecords, newRecords.Keys)
    ensures Unmatched(remaining, oldRecords, newRecords)
  {
    hide Progress;
    hide Lists;
    hide Counts;
    hide Keyed;
    hide ChangeAt;
    hide Partition;
    hide Sorted;
    hide Increasing;
    hide Tally;
    added, modified, changes, remaining := 0, 0, [], oldRecords;
    var todo := newRecords.Keys;
    ghost var done: set<Key> := {};
    NothingVisited(oldRecords, newRecords);
    while todo != {}
      invariant Partition(done, todo, newRecords.Keys, newRecords.Keys)
      invariant remaining == oldRecords - done
      invariant Progress(Report(added, modified, 0, |changes|, changes), oldRecords, newRecords, done)
      decreases |todo|
    {
      var k := Pick(todo);
      MoveKey(done, todo, newRecords.Keys, newRecords.Keys, k);
      var current := newRecords[k];
      PresentAt(oldRecords, newRecords, k);
      if k !in remaining {
        var change := Change(Added, current.path, None, Some(current.sha), current.size, current.modified);
        ProgressChange(Report(added, modified, 0, |changes|, changes), oldRecords, newRecords, done, k, change);
        added := added + 1;
        changes := changes + [change];
      } else if remaining[k].sha != current.sha {
        var change :=
          Change(Modified, current.path, Some(remaining[k].sha), Some(current.sha), current.size, current.modified);
        ProgressChange(Report(added, modified, 0, |changes|, changes), oldRecords, newRecords, done, k, change);
        modified := modified + 1;
        changes := changes + [change];
      } else {
        ProgressNone(Report(added, modified, 0, |changes|, changes), oldRecords, newRecords, done, k);
      }
      RemoveKey(oldRecords, done, k);
      remaining := remaining - {k};
      todo, done := todo - {k}, done + {k};
    }
    AllMoved(done, newRecords.Keys, newRecords.Keys);
  }

  lemma RemoveKey(o: Records, done: set<Key>, k: Key)
    ensures o - done - {k} == o - (done + {k})
  {
  }

  lemma NothingVisited(o: Records, n: Records)
    ensures Progress(Report(0, 0, 0, 0, []), o, n, {}) && o - {} == o && Partition({}, n.Keys, n.Keys, n.Keys)
  {
  }

  lemma PresentAt(o: Records, n: Records, k: Key)
    requires k in n
    ensures k !in o ==>
      ChangeAt(o, n, k) == Some(Change(Added, n[k].path, None, Some(n[k].sha), n[k].size, n[k].modified))
    ensures k in o && o[k].sha == n[k].sha ==> ChangeAt(o, n, k) == None
    ensures k in o && o[k].sha != n[k].sha ==>
      ChangeAt(o, n, k) == Some(Change(Modified, n[k].path, Some(o[k].sha), Some(n[k].sha), n[k].size, n[k].modified))
  {
  }

  // ---------------------------------------------------------------- all buckets

  /** The bucket files a scan of `records` writes. */
  ghost predicate Written(files: seq<BucketFile>, records: seq<FileRecord>, digest: Key -> nat) {
    && |files| == BUCKET_COUNT
    && forall i :: 0 <= i < BUCKET_COUNT ==> files[i].lines == Bucket(records, digest, i)
  }

  /** The keys of two snapshots in the buckets below `i`, and in bucket `i`. */
  ghost function KeysBelow(o: Records, n: Records, digest: Key -> nat, i: nat): set<Key> {
    set k | k in o.Keys + n.Keys && digest(k) < i
  }

  ghost function KeysOf(o: Records, n: Records, digest: Key -> nat, i: nat): set<Key> {
    set k | k in o.Keys + n.Keys && digest(k) == i
  }

  /** `part` is `whole` at the keys of bucket `i`. */
  ghost predicate PartOf(part: Records, whole: Records, digest: Key -> nat, i: nat) {
    && (forall k :: k in part ==> k in whole && digest(k) == i && part[k] == whole[k])
    && (forall k :: k in whole && digest(k) == i ==> k in part)
  }

  lemma BucketIsPart(records: seq<FileRecord>, digest: Key -> nat, i: nat)
    ensures PartOf(Index(Bucket(records, digest, i)), Index(records), digest, i)
  {
    hide Index;
    hide Bucket;
    var part, whole := Index(Bucket(records, digest, i)), Index(records);
    forall k | k in part ensures k in whole && digest(k) == i && part[k] == whole[k] {
      BucketIndex(records, digest, i, k);
    }
    forall k | k in whole && digest(k) == i ensures k in part {
      BucketIndex(records, digest, i, k);
    }
  }

  lemma PartKeys(o: Records, n: Records, o': Records, n': Records, digest: Key -> nat, i: nat)
    requires PartOf(o, o', digest, i) && PartOf(n, n', digest, i)
    ensures n.Keys + o.Keys == KeysOf(o', n', digest, i)
  {
    forall k | k in n.Keys + o.Keys ensures k in KeysOf(o', n', digest, i) {
      assert digest(k) == i;
    }
    forall k | k in KeysOf(o', n', digest, i) ensures k in n.Keys + o.Keys {
      assert digest(k) == i;
    }
  }

  lemma PartChange(o: Records, n: Records, o': Records, n': Records, digest: Key -> nat, i: nat, k: Key)
    requires PartOf(o, o', digest, i) && PartOf(n, n', digest, i) && k in KeysOf(o', n', digest, i)
    ensures ChangeAt(o, n, k) == ChangeAt(o', n', k)
  {
  }

  /** One bucket's changes are the snapshots' changes at the keys of that bucket. */
  lemma PartLists(cs: seq<Change>, o: Records, n: Records, o': Records, n': Records, digest: Key -> nat, i: nat)
    requires PartOf(o, o', digest, i) && PartOf(n, n', digest, i) && Lists(cs, o, n, n.Keys + o.Keys)
    ensures Lists(cs, o', n', KeysOf(o', n', digest, i))
  {
    hide *;
    PartKeys(o, n, o', n', digest, i);
    forall k | k in KeysOf(o', n', digest, i) ensures ChangeAt(o, n, k) == ChangeAt(o', n', k) {
      PartChange(o, n, o', n', digest, i, k);
    }
    ListsSameMaps(cs, o, n, o', n', KeysOf(o', n', digest, i));
  }

  lemma KeysSplit(o: Records, n: Records, digest: Key -> nat, i: nat)
    ensures KeysBelow(o, n, digest, i + 1) == KeysBelow(o, n, digest, i) + KeysOf(o, n, digest, i)
    ensures KeysBelow(o, n, digest, i) !! KeysOf(o, n, digest, i)
    ensures forall k :: k in KeysBelow(o, n, digest, i) ==> digest(k) < i
    ensures forall k :: k in KeysOf(o, n, digest, i) ==> digest(k) == i
  {
  }

  lemma KeysAllBelow(o: Records, n: Records, digest: Key -> nat, i: nat)
    requires forall k :: digest(k) < i
    ensures KeysBelow(o, n, digest, i) == o.Keys + n.Keys
  {
    forall k | k in o.Keys + n.Keys ensures k in KeysBelow(o, n, digest, i) {
      assert digest(k) < i;
    }
  }

  /** What the report says once the buckets below `i` are compared. */
  ghost predicate Reported(cs: seq<Change>, was: seq<FileRecord>, now: seq<FileRecord>, digest: Key -> nat, i: nat) {
    && Lists(cs, Index(was), Index(now), KeysBelow(Index(was), Index(now), digest, i))
    && Ordered(cs, digest)
  }

  lemma NothingReported(was: seq<FileRecord>, now: seq<FileRecord>, digest: Key -> nat)
    ensures Reported([], was, now, digest, 0)
  {
    hide Index;
    assert KeysBelow(Index(was), Index(now), digest, 0) == {};
  }

  lemma BucketReported(cs: seq<Change>, more: seq<Change>, was: seq<FileRecord>, now: seq<FileRecord>,
      digest: Key -> nat, i: nat)
    requires Reported(cs, was, now, digest, i) && Increasing(more)
    requires var o, n := Index(Bucket(was, digest, i)), Index(Bucket(now, digest, i));
      Lists(more, o, n, n.Keys + o.Keys)
    ensures Reported(cs + more, was, now, digest, i + 1)
  {
    hide Index;
    hide Bucket;
    hide Lists;
    hide KeysBelow;
    hide KeysOf;
    hide Ordered;
    hide Increasing;
    hide PartOf;
    var o, n := Index(was), Index(now);
    BucketIsPart(was, digest, i);
    BucketIsPart(now, digest, i);
    PartLists(more, Index(Bucket(was, digest, i)), Index(Bucket(now, digest, i)), o, n, digest, i);
    KeysSplit(o, n, digest, i);
    ListsJoined(cs, more, o, n, KeysBelow(o, n, digest, i), KeysOf(o, n, digest, i));
    OrderedJoined(cs, more, o, n, KeysBelow(o, n, digest, i), KeysOf(o, n, digest, i), digest, i);
  }

  lemma OrderedJoined(cs: seq<Change>, more: seq<Change>, o: Records, n: Records, below: set<Key>, keys: set<Key>,
      digest: Key -> nat, i: nat)
    requires Lists(cs, o, n, below) && Lists(more, o, n, keys) && Ordered(cs, digest) && Increasing(more)
    requires (forall k :: k in below ==> digest(k) < i) && (forall k :: k in keys ==> digest(k) == i)
    ensures Ordered(cs + more, digest)
  {
    hide ChangeAt;
    forall a | 0 <= a < |cs| ensures digest(cs[a].path.key) < i {
      assert Correct(cs[a], o, n, below) by { assert cs[a] in cs; }
    }
    forall b | 0 <= b < |more| ensures digest(more[b].path.key) == i {
      assert Correct(more[b], o, n, keys) by { assert more[b] in more; }
    }
  }

  ghost predicate AllReadable(before: seq<BucketFile>, after: seq<BucketFile>, n: nat)
    requires n <= |before| && n <= |after|
  {
    forall i :: 0 <= i < n ==> Readable(before[i]) && Readable(after[i])
  }

  lemma CountConcat(r: Report, s: Report)
    requires Counts(r) && Counts(s)
    ensures Counts(Report(r.added + s.added, r.modified + s.modified, r.deleted + s.deleted, r.stored + s.stored,
      r.changes + s.changes))
  {
    hide Tally;
    TallyConcat(r.changes, s.changes, Added);
    TallyConcat(r.changes, s.changes, Modified);
    TallyConcat(r.changes, s.changes, Deleted);
  }

  /**
   Fails if and only if the previous snapshot does not authenticate or some bucket
   cannot be read. For snapshots `was` and `now` as a scan writes them, the report
   lists exactly the differences of the whole snapshots, in order, and its counters
   count them; a first snapshot reports nothing.
   */
  method Compare(
    previous: Previous, files: seq<BucketFile>,
    ghost was: seq<FileRecord>, ghost now: seq<FileRecord>, ghost digest: Key -> nat)
    returns (r: Option<Report>)
    requires |files| == BUCKET_COUNT && (previous.Snapshot? ==> |previous.files| == BUCKET_COUNT)
    ensures previous.NoPrevious? ==> r == Some(EMPTY_REPORT)
    ensures previous.Snapshot? ==>
      (r.Some? <==> (previous.authentic && AllReadable(previous.files, files, BUCKET_COUNT)))
    ensures r.Some? ==> Counts(r.value)
    ensures previous.Snapshot? && r.Some? && Written(previous.files, was, digest) && Written(files, now, digest) ==>
      Reported(r.value.changes, was, now, digest, BUCKET_COUNT)
  {
    if previous.NoPrevious? {
      return Some(EMPTY_REPORT);
    }
    if !previous.authentic {
      return None;
    }
    var total := EMPTY_REPORT;
    var index := 0;
    NothingReported(was, now, digest);
    while index < BUCKET_COUNT
      invariant 0 <= index <= BUCKET_COUNT && Counts(total)
      invariant AllReadable(previous.files, files, index)
      invariant Written(previous.files, was, digest) && Written(files, now, digest) ==>
        Reported(total.changes, was, now, digest, index)
    {
      hide Readable;
      hide Reported;
      hide Counts;
      hide Lists;
      hide Increasing;
      hide Index;
      hide Bucket;
      var oldRecords := ReadBucket(previous.files[index]);
      if oldRecords.None? {
        return None;
      }
      var newRecords := ReadBucket(files[index]);
      if newRecords.None? {
        return None;
      }
      IndexKeyed(previous.files[index].lines);
      IndexKeyed(files[index].lines);
      var bucket := CompareBucket(oldRecords.value, newRecords.value);
      if Written(previous.files, was, digest) && Written(files, now, digest) {
        BucketReported(total.changes, bucket.changes, was, now, digest, index);
      }
      CountConcat(total, bucket);
      total := Report(total.added + bucket.added, total.modified + bucket.modified, total.deleted + bucket.deleted,
                      total.stored + bucket.stored, total.changes + bucket.changes);
      index := index + 1;
    }
    return Some(total);
  }

  // ---------------------------------------------------------------- what a report means

  /**
   A finished report lists exactly the paths whose hash differs and tells what became of each,
   replays the old snapshot into the new one and back, conserves the number of files and stores
   each change under exactly one kind.
   */
  lemma ReportExplainsSnapshot(r: Report, was: seq<FileRecord>, now: seq<FileRecord>, digest: Key -> nat)
    requires Counts(r) && Reported(r.changes, was, now, digest, BUCKET_COUNT)
    requires forall k :: digest(k) < BUCKET_COUNT
    ensures forall c :: c in r.changes ==> Tells(c, Index(was), Index(now))
    ensures forall k :: Listed(r.changes, k) <==> HashAt(Index(was), k) != HashAt(Index(now), k)
    ensures Replay(Hashes(Index(was)), r.changes) == Hashes(Index(now))
    ensures Replay(Hashes(Index(now)), Undone(r.changes)) == Hashes(Index(was))
    ensures |Index(now)| == |Index(was)| + r.added - r.deleted
    ensures r.stored == r.added + r.modified + r.deleted
  {
    hide Index;
    hide Replay;
    hide Hashes;
    hide Lists;
    hide Tally;
    IndexKeyed(was);
    IndexKeyed(now);
    var o, n := Index(was), Index(now);
    KeysAllBelow(o, n, digest, BUCKET_COUNT);
    hide KeysBelow;
    hide Tells;
    hide Listed;
    hide HashAt;
    ListedIffDiffers(r.changes, o, n);
    UndoGivesOld(r.changes, o, n);
    ReplayGivesNew(r.changes, o, n);
    SizeConserved(r.changes, o, n);
    TallyTotal(r.changes);
  }

  /** Two comparisons of the same snapshots report the same list, whatever order the maps were visited in. */
  lemma ReportDeterministic(a: seq<Change>, b: seq<Change>, was: seq<FileRecord>, now: seq<FileRecord>,
      digest: Key -> nat, i: nat)
    requires Reported(a, was, now, digest, i) && Reported(b, was, now, digest, i)
    ensures a == b
  {
    hide Index;
    hide Lists;
    hide Ordered;
    ListsMembers(a, b, Index(was), Index(now), KeysBelow(Index(was), Index(now), digest, i));
    OrderedUnique(a, b, digest);
  }

  /** Every bucket a scan writes can be read back. */
  ghost predicate Fits(records: seq<FileRecord>, digest: Key -> nat) {
    forall i :: 0 <= i < BUCKET_COUNT ==> Readable(BucketFile(Bucket(records, digest, i), true))
  }

  lemma FitsReadable(records: seq<FileRecord>, digest: Key -> nat, files: seq<BucketFile>)
    requires |files| == BUCKET_COUNT
    requires forall i :: 0 <= i < BUCKET_COUNT ==> files[i] == BucketFile(Bucket(records, digest, i), true)
    ensures Fits(records, digest) <==> forall i :: 0 <= i < BUCKET_COUNT ==> Readable(files[i])
  {
    hide Bucket;
    hide Readable;
    if forall i :: 0 <= i < BUCKET_COUNT ==> Readable(files[i]) {
      forall i | 0 <= i < BUCKET_COUNT ensures Readable(BucketFile(Bucket(records, digest, i), true)) {
        assert files[i] == BucketFile(Bucket(records, digest, i), true);
      }
    }
  }

  /** A scan and a later scan, written to buckets and compared, report how the second differs from the first. */
  method ScanAndCompare(was: seq<FileRecord>, now: seq<FileRecord>, digest: Key -> nat) returns (r: Option<Report>)
    requires forall k :: digest(k) < BUCKET_COUNT
    ensures r.Some? <==> Fits(was, digest) && Fits(now, digest)
    ensures r.Some? ==> Ordered(r.value.changes, digest)
    ensures r.Some? ==> forall c :: c in r.value.changes ==> Tells(c, Index(was), Index(now))
    ensures r.Some? ==> forall k :: Listed(r.value.changes, k) <==> HashAt(Index(was), k) != HashAt(Index(now), k)
    ensures r.Some? ==> Replay(Hashes(Index(was)), r.value.changes) == Hashes(Index(now))
    ensures r.Some? ==> |Index(now)| == |Index(was)| + r.value.added - r.value.deleted
    ensures r.Some? ==> r.value.stored == r.value.added + r.value.modified + r.value.deleted
  {
    hide Index;
    hide Bucket;
    hide Replay;
    hide Hashes;
    hide Counts;
    hide Readable;
    hide Lists;
    hide Ordered;
    hide Tells;
    hide Listed;
    hide HashAt;
    var before := WriteBuckets(was, digest);
    var after := WriteBuckets(now, digest);
    var previous := Snapshot(true, seq(BUCKET_COUNT, i requires 0 <= i < BUCKET_COUNT => BucketFile(before[i], true)));
    var files := seq(BUCKET_COUNT, i requires 0 <= i < BUCKET_COUNT => BucketFile(after[i], true));
    r := Compare(previous, files, was, now, digest);
    FitsReadable(was, digest, previous.files);
    FitsReadable(now, digest, files);
    if r.Some? {
      ReportExplainsSnapshot(r.value, was, now, digest);
    }
  }
}
