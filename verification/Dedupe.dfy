/**
 Bounded de-duplication: slots filled once and then reused round-robin, with an
 index from key to slot. It behaves like a first-in-first-out queue of the last
 `capacity` distinct new keys; a refreshed key keeps its place.
 */
module Dedupe {

  /** A key; the empty string is `NoKey`. */
  datatype Key = NoKey | Key(id: nat)

  datatype Entry = Entry(key: Key, expiry: int)

  // ---------------------------------------------------------------- the plain queue

  /** The retained entries, oldest insertion first. */
  type Queue = seq<Entry>

  ghost predicate Distinct(q: Queue) {
    forall i, j :: 0 <= i < j < |q| ==> q[i].key != q[j].key
  }

  function Find(q: Queue, key: Key): (i: int)
    ensures -1 <= i < |q|
    ensures i >= 0 ==> q[i].key == key
    ensures i < 0 ==> forall k :: 0 <= k < |q| ==> q[k].key != key
  {
    if q == [] then -1
    else if q[|q| - 1].key == key then |q| - 1
    else Find(q[..|q| - 1], key)
  }

  function Refused(key: Key, ttl: int): bool {
    key == NoKey || ttl <= 0
  }

  predicate Admits(q: Queue, key: Key, now: int, ttl: int) {
    !Refused(key, ttl) && (Find(q, key) < 0 || q[Find(q, key)].expiry <= now)
  }

  function Pushed(q: Queue, capacity: nat, e: Entry): Queue {
    if |q| < capacity || q == [] then q + [e] else q[1..] + [e]
  }

  /** The queue after an attempt. */
  function Next(q: Queue, capacity: nat, key: Key, now: int, ttl: int): Queue {
    if !Admits(q, key, now, ttl) then q
    else if Find(q, key) >= 0 then q[Find(q, key) := Entry(key, now + ttl)]
    else Pushed(q, capacity, Entry(key, now + ttl))
  }

  // ---------------------------------------------------------------- the slots

  /** The slots from the next victim on: insertion order. */
  function Rotated(entries: seq<Entry>, next: nat): Queue
    requires next <= |entries|
  {
    entries[next..] + entries[..next]
  }

  /** Index and slots are inverse maps. */
  ghost predicate Inverse(entries: seq<Entry>, index: map<Key, nat>) {
    && (forall i :: 0 <= i < |entries| ==> entries[i].key in index && index[entries[i].key] == i)
    && (forall k :: k in index ==> index[k] < |entries| && entries[index[k]].key == k)
  }

  /** Where the entry of a slot stands in the queue. */
  function Position(n: nat, next: nat, slot: nat): nat
    requires next <= n && slot < n
  {
    if slot >= next then slot - next else n - next + slot
  }

  lemma RotatedAt(entries: seq<Entry>, next: nat, slot: nat)
    requires next <= |entries| && slot < |entries|
    ensures var i := Position(|entries|, next, slot);
      i < |Rotated(entries, next)| && Rotated(entries, next)[i] == entries[slot]
  {
  }

  lemma RotatedDistinct(entries: seq<Entry>, index: map<Key, nat>, next: nat)
    requires Inverse(entries, index) && next <= |entries|
    ensures Distinct(Rotated(entries, next))
    ensures forall e :: e in Rotated(entries, next) ==> e.key in index
  {
    var q, n := Rotated(entries, next), |entries|;
    forall i, j | 0 <= i < j < |q| ensures q[i].key != q[j].key {
      var a := if i < n - next then next + i else i - (n - next);
      var b := if j < n - next then next + j else j - (n - next);
      assert q[i] == entries[a] && q[j] == entries[b];
    }
  }

  /** A key outside the index is not in the queue; one inside stands where its slot says. */
  lemma FindBySlot(entries: seq<Entry>, index: map<Key, nat>, next: nat, key: Key)
    requires Inverse(entries, index) && next <= |entries|
    ensures key !in index ==> Find(Rotated(entries, next), key) < 0
    ensures key in index ==> Find(Rotated(entries, next), key) == Position(|entries|, next, index[key])
  {
    var q := Rotated(entries, next);
    RotatedDistinct(entries, index, next);
    if key in index {
      RotatedAt(entries, next, index[key]);
      FindAt(q, Position(|entries|, next, index[key]), key);
    } else {
      forall k | 0 <= k < |q| ensures q[k].key != key {
        assert q[k] in q;
      }
    }
  }

  lemma RefreshSlot(entries: seq<Entry>, index: map<Key, nat>, next: nat, e: Entry)
    requires Inverse(entries, index) && next <= |entries| && e.key in index
    ensures var slot := index[e.key];
      && Inverse(entries[slot := e], index)
      && Rotated(entries[slot := e], next) == Rotated(entries, next)[Position(|entries|, next, slot) := e]
  {
  }

  lemma FillSlot(entries: seq<Entry>, index: map<Key, nat>, e: Entry)
    requires Inverse(entries, index) && e.key !in index
    ensures Inverse(entries + [e], index[e.key := |entries|])
    ensures Rotated(entries + [e], 0) == Rotated(entries, 0) + [e]
  {
  }

  lemma ReuseRotated(entries: seq<Entry>, next: nat, e: Entry)
    requires next < |entries|
    ensures Rotated(entries[next := e], (next + 1) % |entries|) == Rotated(entries, next)[1..] + [e]
  {
    var n, after := |entries|, entries[next := e];
    if next + 1 == n {
      assert (next + 1) % n == 0;
      assert Rotated(after, 0) == after;
      assert Rotated(entries, next)[1..] == entries[..next];
    } else {
      assert (next + 1) % n == next + 1;
      assert after[next + 1..] == entries[next + 1..];
      assert after[..next + 1] == entries[..next] + [e];
      assert Rotated(entries, next)[1..] == entries[next + 1..] + entries[..next];
    }
  }

  lemma ReuseSlot(entries: seq<Entry>, index: map<Key, nat>, next: nat, e: Entry)
    requires Inverse(entries, index) && next < |entries| && e.key !in index
    ensures Inverse(entries[next := e], (index - {entries[next].key})[e.key := next])
    ensures Rotated(entries[next := e], (next + 1) % |entries|) == Rotated(entries, next)[1..] + [e]
  {
    hide Rotated;
    ReuseRotated(entries, next, e);
  }

  class BoundedDedupe {
    const capacity: nat
    var entries: seq<Entry>
    var index: map<Key, nat>
    var next: nat

    ghost predicate Valid() reads this {
      && 1 <= capacity && |entries| <= capacity
      && (|entries| < capacity ==> next == 0)
      && (next < |entries| || next == 0)
      && Inverse(entries, index)
    }

    /** The entries in insertion order. */
    ghost function View(): Queue reads this requires Valid() {
      Rotated(entries, next)
    }

    constructor (requested: int)
      ensures Valid() && View() == [] && capacity == (if requested < 1 then 1 else requested)
    {
      capacity := if requested < 1 then 1 else requested;
      entries, index, next := [], map[], 0;
    }

    method Admit(key: Key, now: int, ttl: int) returns (ok: bool)
      requires Valid()
      modifies this
      ensures Valid()
      ensures ok == Admits(old(View()), key, now, ttl)
      ensures View() == Next(old(View()), capacity, key, now, ttl)
    {
      hide Rotated;
      hide Inverse;
      hide Find;
      if key == NoKey || ttl <= 0 {
        return false;
      }
      FindBySlot(entries, index, next, key);
      RotatedLength(entries, next);
      var entry := Entry(key, now + ttl);
      if key in index {
        ok := RefreshExpired(entry, now);
        return;
      }
      if |entries| < capacity {
        FillSlot(entries, index, entry);
        index := index[key := |entries|];
        entries := entries + [entry];
        return true;
      }
      ReuseSlot(entries, index, next, entry);
      index := (index - {entries[next].key})[key := next];
      entries := entries[next := entry];
      next := (next + 1) % |entries|;
      return true;
    }

    /** A retained key: refused while fresh, otherwise its expiry is renewed in its slot. */
    method RefreshExpired(entry: Entry, now: int) returns (ok: bool)
      requires Valid() && entry.key in index
      modifies this`entries
      ensures Valid()
      ensures var q := old(View());
        var i := Position(|q|, next, index[entry.key]);
        && 0 <= i < |q| && q[i].key == entry.key
        && ok == (q[i].expiry <= now)
        && View() == if ok then q[i := entry] else q
    {
      var slot := index[entry.key];
      RotatedAt(entries, next, slot);
      RefreshSlot(entries, index, next, entry);
      if now < entries[slot].expiry {
        return false;
      }
      entries := entries[slot := entry];
      return true;
    }
  }

  lemma RotatedLength(entries: seq<Entry>, next: nat)
    requires next <= |entries|
    ensures |Rotated(entries, next)| == |entries|
  {
  }

  lemma FindAt(q: Queue, i: nat, key: Key)
    requires Distinct(q) && i < |q| && q[i].key == key
    ensures Find(q, key) == i
  {
  }

  // ---------------------------------------------------------------- runs

  datatype Attempt = Attempt(key: Key, now: int, ttl: int)

  function RunQueue(q: Queue, capacity: nat, attempts: seq<Attempt>): Queue {
    if attempts == [] then q
    else
      var a := attempts[|attempts| - 1];
      Next(RunQueue(q, capacity, attempts[..|attempts| - 1]), capacity, a.key, a.now, a.ttl)
  }

  /** The attempt inserts a key that is not retained. */
  predicate Inserts(q: Queue, a: Attempt) {
    !Refused(a.key, a.ttl) && Find(q, a.key) < 0
  }

  function Insertions(q: Queue, capacity: nat, attempts: seq<Attempt>): nat {
    if attempts == [] then 0
    else
      var before := attempts[..|attempts| - 1];
      Insertions(q, capacity, before)
        + if Inserts(RunQueue(q, capacity, before), attempts[|attempts| - 1]) then 1 else 0
  }

  lemma NextShape(q: Queue, capacity: nat, a: Attempt)
    requires capacity >= 1 && |q| <= capacity && Distinct(q)
    ensures var q' := Next(q, capacity, a.key, a.now, a.ttl);
      && |q'| <= capacity && Distinct(q')
      && (!Inserts(q, a) ==> |q'| == |q| && forall i :: 0 <= i < |q| ==> q'[i].key == q[i].key)
      && (Inserts(q, a) ==>
            && |q'| == (if |q| < capacity then |q| + 1 else capacity)
            && q'[|q'| - 1].key == a.key
            && forall i :: 0 <= i < |q'| - 1 ==> q'[i].key == q[i + |q| + 1 - |q'|].key)
  {
  }

  lemma {:induction false} RunShape(q: Queue, capacity: nat, attempts: seq<Attempt>)
    requires capacity >= 1 && |q| <= capacity && Distinct(q)
    ensures |RunQueue(q, capacity, attempts)| <= capacity && Distinct(RunQueue(q, capacity, attempts))
  {
    if attempts != [] {
      var before := attempts[..|attempts| - 1];
      RunShape(q, capacity, before);
      NextShape(RunQueue(q, capacity, before), capacity, attempts[|attempts| - 1]);
    }
  }

  /**
   A key that was just inserted sits, after `n` later insertions, `n` places
   before the end, whatever was refreshed or refused in between.
   */
  lemma {:induction false} RetainedFor(q: Queue, capacity: nat, key: Key, attempts: seq<Attempt>)
    requires capacity >= 1 && 1 <= |q| <= capacity && Distinct(q) && q[|q| - 1].key == key
    requires Insertions(q, capacity, attempts) < capacity
    ensures var r, n := RunQueue(q, capacity, attempts), Insertions(q, capacity, attempts);
      n < |r| && r[|r| - 1 - n].key == key
  {
    hide Next;
    hide Inserts;
    hide Distinct;
    if attempts != [] {
      var before, a := attempts[..|attempts| - 1], attempts[|attempts| - 1];
      RetainedFor(q, capacity, key, before);
      RunShape(q, capacity, before);
      NextShape(RunQueue(q, capacity, before), capacity, a);
    }
  }

  lemma HeadEvicted(q: Queue, capacity: nat, a: Attempt, key: Key)
    requires capacity >= 1 && |q| == capacity && Distinct(q) && q[0].key == key && Inserts(q, a)
    ensures Find(Next(q, capacity, a.key, a.now, a.ttl), key) < 0
  {
    var q' := Next(q, capacity, a.key, a.now, a.ttl);
    forall i | 0 <= i < |q'| ensures q'[i].key != key {
      if i < |q'| - 1 {
        assert q'[i] == q[i + 1];
      }
    }
  }

  /**
   A newly inserted key is retained through any attempts with fewer than
   `capacity` new insertions, and the `capacity`-th insertion evicts it.
   */
  lemma EvictedByCapacityth(q: Queue, capacity: nat, key: Key, attempts: seq<Attempt>, last: Attempt)
    requires capacity >= 1 && 1 <= |q| <= capacity && Distinct(q) && q[|q| - 1].key == key
    requires Insertions(q, capacity, attempts) < capacity
    requires Inserts(RunQueue(q, capacity, attempts), last)
    ensures Find(RunQueue(q, capacity, attempts), key) >= 0
    ensures var r := RunQueue(q, capacity, attempts + [last]);
      Find(r, key) < 0 <==> Insertions(q, capacity, attempts + [last]) == capacity
  {
    var r, n := RunQueue(q, capacity, attempts), Insertions(q, capacity, attempts);
    assert (attempts + [last])[..|attempts|] == attempts;
    RetainedFor(q, capacity, key, attempts);
    RunShape(q, capacity, attempts);
    FindAt(r, |r| - 1 - n, key);
    if n + 1 == capacity {
      HeadEvicted(r, capacity, last, key);
    } else {
      RetainedFor(q, capacity, key, attempts + [last]);
      var r' := RunQueue(q, capacity, attempts + [last]);
      RunShape(q, capacity, attempts + [last]);
      FindAt(r', |r'| - 1 - (n + 1), key);
    }
  }

  /** In every run a usable key is emitted unless it is retained and unexpired; no retained unexpired key is. */
  lemma EmittedIffNotFresh(capacity: nat, attempts: seq<Attempt>, a: Attempt)
    requires capacity >= 1 && !Refused(a.key, a.ttl)
    ensures var q := RunQueue([], capacity, attempts);
      Admits(q, a.key, a.now, a.ttl) <==>
        forall i :: 0 <= i < |q| && q[i].key == a.key ==> q[i].expiry <= a.now
  {
    var q := RunQueue([], capacity, attempts);
    RunShape([], capacity, attempts);
    var i := Find(q, a.key);
    if i >= 0 {
      forall k | 0 <= k < |q| && q[k].key == a.key ensures k == i {
        FindAt(q, k, a.key);
      }
    }
  }

  // ---------------------------------------------------------------- how long a key is refused

  /** Whether the attempt is admitted after the others. */
  predicate AdmittedAfter(q: Queue, capacity: nat, attempts: seq<Attempt>, a: Attempt) {
    var r := RunQueue(q, capacity, attempts);
    Admits(r, a.key, a.now, a.ttl)
  }

  /** The end of the refusal of `key`: from its last admission among the attempts, or as it was before them. */
  function RefusedUntil(q: Queue, capacity: nat, key: Key, until: int, attempts: seq<Attempt>): int {
    if attempts == [] then until
    else
      var before, a := attempts[..|attempts| - 1], attempts[|attempts| - 1];
      if a.key == key && AdmittedAfter(q, capacity, before, a) then a.now + a.ttl
      else RefusedUntil(q, capacity, key, until, before)
  }

  /** One attempt moves an entry towards the front by the insertions, and renews only the entry of its own key. */
  lemma NextEntry(q: Queue, capacity: nat, a: Attempt, n: nat, key: Key, until: int)
    requires capacity >= 1 && |q| <= capacity && Distinct(q) && n < |q| && q[|q| - 1 - n] == Entry(key, until)
    requires n + (if Inserts(q, a) then 1 else 0) < capacity
    ensures var r := Next(q, capacity, a.key, a.now, a.ttl);
      var m := n + if Inserts(q, a) then 1 else 0;
      && m < |r|
      && r[|r| - 1 - m] == Entry(key, if a.key == key && Admits(q, a.key, a.now, a.ttl) then a.now + a.ttl else until)
  {
    var i := Find(q, a.key);
    FindAt(q, |q| - 1 - n, key);
    hide Find;
  }

  /** A key inserted last is held through fewer than `capacity` insertions, and refused until it runs out. */
  lemma {:induction false} HeldUntil(q: Queue, capacity: nat, key: Key, until: int, attempts: seq<Attempt>)
    requires capacity >= 1 && 1 <= |q| <= capacity && Distinct(q) && q[|q| - 1] == Entry(key, until)
    requires Insertions(q, capacity, attempts) < capacity
    ensures var r, n := RunQueue(q, capacity, attempts), Insertions(q, capacity, attempts);
      n < |r| && r[|r| - 1 - n] == Entry(key, RefusedUntil(q, capacity, key, until, attempts))
  {
    hide Next;
    hide Inserts;
    hide Distinct;
    hide Admits;
    if attempts != [] {
      var before, a := attempts[..|attempts| - 1], attempts[|attempts| - 1];
      HeldUntil(q, capacity, key, until, before);
      RunShape(q, capacity, before);
      NextEntry(RunQueue(q, capacity, before), capacity, a, Insertions(q, capacity, before), key,
                RefusedUntil(q, capacity, key, until, before));
    }
  }

  /** None of the attempts `b` that follow `a` admits the key. */
  ghost predicate NeverAdmitted(q: Queue, capacity: nat, key: Key, a: seq<Attempt>, b: seq<Attempt>) {
    forall i :: 0 <= i < |b| && b[i].key == key ==> !AdmittedAfter(q, capacity, a + b[..i], b[i])
  }

  lemma {:induction false} RefusalStands(
    q: Queue, capacity: nat, key: Key, until: int, a: seq<Attempt>, b: seq<Attempt>
  )
    requires NeverAdmitted(q, capacity, key, a, b)
    ensures RefusedUntil(q, capacity, key, until, a + b) == RefusedUntil(q, capacity, key, until, a)
    decreases |b|
  {
    hide AdmittedAfter;
    if b == [] {
      assert a + b == a;
    } else {
      var n := |b| - 1;
      assert (a + b)[..|a + b| - 1] == a + b[..n] && (a + b)[|a + b| - 1] == b[n];
      forall i | 0 <= i < n && b[..n][i].key == key ensures !AdmittedAfter(q, capacity, a + b[..n][..i], b[..n][i]) {
        assert b[..n][..i] == b[..i];
      }
      RefusalStands(q, capacity, key, until, a, b[..n]);
    }
  }

  /** The queue right after a new key is inserted. */
  lemma Inserted(q: Queue, capacity: nat, a: Attempt)
    requires capacity >= 1 && |q| <= capacity && Distinct(q) && Inserts(q, a)
    ensures var r := Next(q, capacity, a.key, a.now, a.ttl);
      1 <= |r| <= capacity && Distinct(r) && r[|r| - 1] == Entry(a.key, a.now + a.ttl)
  {
    NextShape(q, capacity, a);
  }

  lemma HeldDecides(q: Queue, key: Key, n: nat, until: int, now: int, ttl: int)
    requires Distinct(q) && n < |q| && q[|q| - 1 - n] == Entry(key, until) && key != NoKey && ttl > 0
    ensures Admits(q, key, now, ttl) <==> now >= until
  {
    FindAt(q, |q| - 1 - n, key);
  }

  /** A key inserted last is admitted again exactly when the refusal of its last admission has run out. */
  lemma HeldKeyDecides(q: Queue, capacity: nat, key: Key, until: int, attempts: seq<Attempt>, now: int, ttl: int)
    requires capacity >= 1 && 1 <= |q| <= capacity && Distinct(q) && q[|q| - 1] == Entry(key, until)
    requires Insertions(q, capacity, attempts) < capacity && key != NoKey && ttl > 0
    ensures Admits(RunQueue(q, capacity, attempts), key, now, ttl)
       <==> now >= RefusedUntil(q, capacity, key, until, attempts)
  {
    hide *;
    HeldUntil(q, capacity, key, until, attempts);
    RunShape(q, capacity, attempts);
    var r, n := RunQueue(q, capacity, attempts), Insertions(q, capacity, attempts);
    HeldDecides(r, key, n, RefusedUntil(q, capacity, key, until, attempts), now, ttl);
  }

  /** The queue after `first` inserts its key behind a run. */
  function AfterInsertion(capacity: nat, before: seq<Attempt>, first: Attempt): Queue {
    Next(RunQueue([], capacity, before), capacity, first.key, first.now, first.ttl)
  }

  lemma InsertedInRun(capacity: nat, before: seq<Attempt>, first: Attempt)
    requires capacity >= 1 && Inserts(RunQueue([], capacity, before), first)
    ensures var q := AfterInsertion(capacity, before, first);
      && 1 <= |q| <= capacity && Distinct(q) && q[|q| - 1] == Entry(first.key, first.now + first.ttl)
      && first.key != NoKey
  {
    RunShape([], capacity, before);
    hide RunQueue;
    Inserted(RunQueue([], capacity, before), capacity, first);
    hide Next;
  }

  /**
   In every run: after a new key is admitted, and while fewer than `capacity` new keys follow and
   it is not admitted again, the key is admitted if and only if its time to live has passed.
   */
  lemma NewKeyRefusedForItsTime(
      capacity: nat, before: seq<Attempt>, first: Attempt, later: seq<Attempt>, now: int, ttl: int)
    requires capacity >= 1 && ttl > 0 && Inserts(RunQueue([], capacity, before), first)
    requires Insertions(AfterInsertion(capacity, before, first), capacity, later) < capacity
    requires NeverAdmitted(AfterInsertion(capacity, before, first), capacity, first.key, [], later)
    ensures Admits(RunQueue(AfterInsertion(capacity, before, first), capacity, later), first.key, now, ttl)
       <==> now >= first.now + first.ttl
  {
    hide *;
    InsertedInRun(capacity, before, first);
    var q, until := AfterInsertion(capacity, before, first), first.now + first.ttl;
    HeldKeyDecides(q, capacity, first.key, until, later, now, ttl);
    RefusalStands(q, capacity, first.key, until, [], later);
    assert [] + later == later;
    NothingAdmitted(q, capacity, first.key, until);
  }

  lemma NothingAdmitted(q: Queue, capacity: nat, key: Key, until: int)
    ensures RefusedUntil(q, capacity, key, until, []) == until
  {
  }

  lemma LastAdmission(q: Queue, capacity: nat, key: Key, until: int, mid: seq<Attempt>, again: Attempt)
    requires again.key == key && AdmittedAfter(q, capacity, mid, again)
    ensures RefusedUntil(q, capacity, key, until, mid + [again]) == again.now + again.ttl
  {
    hide AdmittedAfter;
    assert (mid + [again])[..|mid|] == mid && (mid + [again])[|mid|] == again;
  }

  /**
   The same for a key that was renewed: admitted again while still held, it is refused until the
   time to live of that last admission has passed, and no longer than its place in the queue lasts.
   */
  lemma RenewedKeyRefusedForItsTime(
      capacity: nat, before: seq<Attempt>, first: Attempt, mid: seq<Attempt>, again: Attempt, later: seq<Attempt>,
      now: int, ttl: int)
    requires capacity >= 1 && ttl > 0 && Inserts(RunQueue([], capacity, before), first)
    requires again.key == first.key && AdmittedAfter(AfterInsertion(capacity, before, first), capacity, mid, again)
    requires Insertions(AfterInsertion(capacity, before, first), capacity, mid + [again] + later) < capacity
    requires NeverAdmitted(AfterInsertion(capacity, before, first), capacity, first.key, mid + [again], later)
    ensures Admits(
        RunQueue(AfterInsertion(capacity, before, first), capacity, mid + [again] + later), first.key, now, ttl)
       <==> now >= again.now + again.ttl
  {
    hide *;
    InsertedInRun(capacity, before, first);
    var q, until := AfterInsertion(capacity, before, first), first.now + first.ttl;
    HeldKeyDecides(q, capacity, first.key, until, mid + [again] + later, now, ttl);
    RefusalStands(q, capacity, first.key, until, mid + [again], later);
    LastAdmission(q, capacity, first.key, until, mid, again);
  }

  /** An empty key or a time to live that is not positive is never admitted and changes nothing. */
  lemma UnusableRefused(q: Queue, capacity: nat, key: Key, now: int, ttl: int)
    requires key == NoKey || ttl <= 0
    ensures !Admits(q, key, now, ttl) && Next(q, capacity, key, now, ttl) == q
  {
  }
}
