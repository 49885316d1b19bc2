/**
 The resolver: longest-prefix tables swapped under a lock with a generation
 count, and a generation-stamped ring cache guarded by its own lock. Each locked
 section is one step; lookups and reloads interleave in any way.
 */
module GeoResolver {
  import opened Wrappers
  import opened GeoTables
  import opened RingCache

  const CACHE_CAPACITY := 4096

  datatype Entry = Entry(answer: Option<GeoRecord>, generation: nat)

  type AnswerCache = Cache<Addr, Entry>

  function EmptyCache(): AnswerCache {
    Empty(CACHE_CAPACITY)
  }

  // ---------------------------------------------------------------- lookups and reloads as steps

  /** Where a lookup is; `start` is the generation when its first step ran. */
  datatype Lookup =
    | GotGeneration(addr: Addr, start: nat)
    | Missed(addr: Addr, start: nat)
    | Searched(addr: Addr, start: nat, entry: Entry)
    | Done(addr: Addr, start: nat, answer: Option<GeoRecord>, finish: nat)

  /**
   The shared state. `tables[g]` are the rows of generation `g`; the last are
   current. `clearing` counts reloads between their table swap and cache reset.
   */
  datatype State = State(tables: seq<seq<Row>>, cache: AnswerCache, lookups: map<nat, Lookup>, clearing: nat) {
    function Generation(): nat {
      if tables == [] then 0 else |tables| - 1
    }
  }

  const INITIAL := State([[]], EmptyCache(), map[], 0)

  datatype Event =
    | Begin(id: nat, addr: Addr)
    | ReadCache(id: nat)
    | ReadTable(id: nat, answer: Option<GeoRecord>)
    | StoreCache(id: nat)
    | SwapTables(rows: seq<Row>)
    | ClearCache

  /** Where each step may happen. A store indexes the ring at its cursor, which every run keeps in range. */
  ghost predicate Enabled(s: State, e: Event) {
    match e
    case Begin(id, a) => id !in s.lookups && ValidAddr(a)
    case ReadCache(id) => id in s.lookups && s.lookups[id].GotGeneration?
    case ReadTable(id, answer) =>
      id in s.lookups && s.lookups[id].Missed? && AnswerAt(s.tables, s.Generation(), s.lookups[id].addr, answer)
    case StoreCache(id) => id in s.lookups && s.lookups[id].Searched? && s.cache.cursor < |s.cache.keys|
    case SwapTables(rows) => ValidRows(rows)
    case ClearCache => s.clearing > 0
  }

  ghost function Step(s: State, e: Event): State
    requires Enabled(s, e)
  {
    var now := s.Generation();
    match e
    case Begin(id, a) => s.(lookups := s.lookups[id := GotGeneration(a, now)])
    case ReadCache(id) =>
      var l := s.lookups[id];
      if l.addr in s.cache.entries && s.cache.entries[l.addr].generation == l.start then
        s.(lookups := s.lookups[id := Done(l.addr, l.start, s.cache.entries[l.addr].answer, now)])
      else s.(lookups := s.lookups[id := Missed(l.addr, l.start)])
    case ReadTable(id, answer) =>
      var l := s.lookups[id];
      s.(lookups := s.lookups[id := Searched(l.addr, l.start, Entry(answer, now))])
    case StoreCache(id) =>
      var l := s.lookups[id];
      s.(cache := Store(s.cache, CACHE_CAPACITY, l.addr, l.entry),
         lookups := s.lookups[id := Done(l.addr, l.start, l.entry.answer, now)])
    case SwapTables(rows) => s.(tables := s.tables + [rows], clearing := s.clearing + 1)
    case ClearCache => s.(cache := EmptyCache(), clearing := s.clearing - 1)
  }

  /** The answer for the table of generation `g`. */
  ghost predicate AnswerAt(tables: seq<seq<Row>>, g: nat, a: Addr, answer: Option<GeoRecord>) {
    g < |tables| && ValidAddr(a) && ValidRows(tables[g]) && IsAnswer(tables[g], a, answer)
  }

  /** A returned answer is right for a table that was current at some moment of the call. */
  ghost predicate Explained(tables: seq<seq<Row>>, l: Lookup) {
    match l
    case GotGeneration(a, start) => ValidAddr(a) && start < |tables|
    case Missed(a, start) => ValidAddr(a) && start < |tables|
    case Searched(a, start, e) => start <= e.generation && AnswerAt(tables, e.generation, a, e.answer)
    case Done(a, start, answer, finish) =>
      finish < |tables| && exists g :: start <= g <= finish && AnswerAt(tables, g, a, answer)
  }

  /** Every cache entry is the answer for the table of its own generation. */
  ghost predicate CacheTrue(tables: seq<seq<Row>>, entries: map<Addr, Entry>) {
    forall a :: a in entries ==> AnswerAt(tables, entries[a].generation, a, entries[a].answer)
  }

  ghost predicate Consistent(s: State) {
    && s.tables != [] && (forall g :: 0 <= g < |s.tables| ==> ValidRows(s.tables[g]))
    && Bijective(s.cache, CACHE_CAPACITY)
    && CacheTrue(s.tables, s.cache.entries)
    && forall id :: id in s.lookups ==> Explained(s.tables, s.lookups[id])
  }

  lemma SwapExplains(tables: seq<seq<Row>>, rows: seq<Row>, l: Lookup)
    requires Explained(tables, l)
    ensures Explained(tables + [rows], l)
  {
    var more := tables + [rows];
    assert forall g :: 0 <= g < |tables| ==> more[g] == tables[g];
    match l
    case Done(a, start, answer, finish) =>
      var g :| start <= g <= finish && AnswerAt(tables, g, a, answer);
      assert AnswerAt(more, g, a, answer);
    case _ =>
  }

  lemma StepKeepsConsistent(s: State, e: Event)
    requires Consistent(s) && Enabled(s, e)
    ensures Consistent(Step(s, e))
  {
    hide Bijective;
    hide IsAnswer;
    match e
    case Begin(id, a) =>
    case ReadCache(id) =>
      var l := s.lookups[id];
      if l.addr in s.cache.entries && s.cache.entries[l.addr].generation == l.start {
        assert AnswerAt(s.tables, l.start, l.addr, s.cache.entries[l.addr].answer);
      }
    case ReadTable(id, answer) =>
      assert AnswerAt(s.tables, s.Generation(), s.lookups[id].addr, answer);
    case StoreCache(id) =>
      StoreIsConsistent(s, id);
    case SwapTables(rows) =>
      SwapIsConsistent(s, rows);
    case ClearCache =>
      EmptyIsBijective<Addr, Entry>(CACHE_CAPACITY);
  }

  lemma StoreIsConsistent(s: State, id: nat)
    requires Consistent(s) && Enabled(s, StoreCache(id))
    ensures Consistent(Step(s, StoreCache(id)))
  {
    hide IsAnswer;
    hide Bijective;
    hide Store;
    var l := s.lookups[id];
    StoreKeepsBijection(s.cache, CACHE_CAPACITY, l.addr, l.entry);
    assert AnswerAt(s.tables, l.entry.generation, l.addr, l.entry.answer);
  }

  lemma SwapIsConsistent(s: State, rows: seq<Row>)
    requires Consistent(s) && ValidRows(rows)
    ensures Consistent(s.(tables := s.tables + [rows], clearing := s.clearing + 1))
  {
    hide Bijective;
    hide IsAnswer;
    var more := s.tables + [rows];
    assert forall g :: 0 <= g < |s.tables| ==> more[g] == s.tables[g];
    forall a | a in s.cache.entries
      ensures AnswerAt(more, s.cache.entries[a].generation, a, s.cache.entries[a].answer)
    {
      assert AnswerAt(s.tables, s.cache.entries[a].generation, a, s.cache.entries[a].answer);
    }
    forall id | id in s.lookups ensures Explained(more, s.lookups[id]) {
      SwapExplains(s.tables, rows, s.lookups[id]);
    }
  }

  /** The state after the events, if each could happen in its turn from the initial state. */
  ghost function After(events: seq<Event>): Option<State> {
    if events == [] then Some(INITIAL)
    else
      match After(events[..|events| - 1])
      case None => None
      case Some(s) => if Enabled(s, events[|events| - 1]) then Some(Step(s, events[|events| - 1])) else None
  }

  /**
   In every interleaving of lookups and reloads, every finished lookup returned
   the longest-prefix answer for a table that was current during the call, and the
   cache ring and map are in bijection with at most 4096 entries.
   */
  lemma {:induction false} EveryLookupIsExplained(events: seq<Event>, s: State)
    requires After(events) == Some(s)
    ensures Consistent(s)
    ensures |s.cache.entries| <= CACHE_CAPACITY && s.cache.cursor < |s.cache.keys|
    ensures forall id :: id in s.lookups && s.lookups[id].Done? ==>
      var l := s.lookups[id];
      exists g :: l.start <= g <= l.finish < |s.tables| && AnswerAt(s.tables, g, l.addr, l.answer)
  {
    hide Enabled;
    hide Step;
    hide Consistent;
    hide Bijective;
    if events == [] {
      InitialIsConsistent();
    } else {
      var before := After(events[..|events| - 1]).value;
      EveryLookupIsExplained(events[..|events| - 1], before);
      StepKeepsConsistent(before, events[|events| - 1]);
    }
    ConsistentMeans(s);
  }

  lemma InitialIsConsistent()
    ensures Consistent(INITIAL)
  {
    EmptyIsBijective<Addr, Entry>(CACHE_CAPACITY);
  }

  lemma ConsistentMeans(s: State)
    requires Consistent(s)
    ensures |s.cache.entries| <= CACHE_CAPACITY && s.cache.cursor < |s.cache.keys|
    ensures forall id :: id in s.lookups && s.lookups[id].Done? ==>
      var l := s.lookups[id];
      exists g :: l.start <= g <= l.finish < |s.tables| && AnswerAt(s.tables, g, l.addr, l.answer)
  {
    hide AnswerAt;
    forall id | id in s.lookups && s.lookups[id].Done?
      ensures var l := s.lookups[id];
        exists g :: l.start <= g <= l.finish < |s.tables| && AnswerAt(s.tables, g, l.addr, l.answer)
    {
      assert Explained(s.tables, s.lookups[id]);
    }
  }

  /** What a lookup stored answers the next lookup of that address, as long as the tables have not changed. */
  lemma SecondLookupHits(s: State, id: nat, again: nat)
    requires Consistent(s) && Enabled(s, StoreCache(id)) && again !in s.lookups
    requires s.lookups[id].entry.generation == s.Generation()
    ensures var l := s.lookups[id];
      var begun := Step(Step(s, StoreCache(id)), Begin(again, l.addr));
      && begun.lookups[id] == Done(l.addr, l.start, l.entry.answer, s.Generation())
      && Enabled(begun, ReadCache(again))
      && Step(begun, ReadCache(again)).lookups[again] ==
           Done(l.addr, s.Generation(), l.entry.answer, s.Generation())
  {
    hide IsAnswer;
    hide Bijective;
    hide Store;
    var l := s.lookups[id];
    StoreKeepsBijection(s.cache, CACHE_CAPACITY, l.addr, l.entry);
    assert AnswerAt(s.tables, l.entry.generation, l.addr, l.entry.answer);
  }

  // ---------------------------------------------------------------- the object

  /** Entries of the current generation are answers for the loaded rows. */
  ghost predicate CurrentTrue(entries: map<Addr, Entry>, generation: nat, rows: seq<Row>) {
    && ValidRows(rows)
    && forall a :: a in entries && entries[a].generation == generation ==>
         ValidAddr(a) && IsAnswer(rows, a, entries[a].answer)
  }

  lemma StoreStaysTrue(c: AnswerCache, generation: nat, rows: seq<Row>, a: Addr, answer: Option<GeoRecord>)
    requires Bijective(c, CACHE_CAPACITY) && CurrentTrue(c.entries, generation, rows)
    requires ValidAddr(a) && IsAnswer(rows, a, answer)
    ensures c.cursor < |c.keys|
    ensures var c' := Store(c, CACHE_CAPACITY, a, Entry(answer, generation));
      Bijective(c', CACHE_CAPACITY) && CurrentTrue(c'.entries, generation, rows)
  {
    hide IsAnswer;
    hide Bijective;
    hide Store;
    StoreKeepsBijection(c, CACHE_CAPACITY, a, Entry(answer, generation));
  }

  class Resolver {
    var v4: Table
    var v6: Table
    var v4Lens: seq<nat>
    var v6Lens: seq<nat>
    var generation: nat
    var cache: AnswerCache
    /** The addresses that are looked up at all: special-use ranges are not. */
    const public: Addr -> bool
    ghost var rows: seq<Row>
    ghost var lengths4: set<nat>
    ghost var lengths6: set<nat>

    ghost predicate Valid() reads this {
      && Describes(v4, lengths4, rows, V4) && Describes(v6, lengths6, rows, V6)
      && Descending(v4Lens) && (forall n :: n in v4Lens <==> n in lengths4)
      && Descending(v6Lens) && (forall n :: n in v6Lens <==> n in lengths6)
      && Bijective(cache, CACHE_CAPACITY)
      && CurrentTrue(cache.entries, generation, rows)
    }

    constructor (public: Addr -> bool)
      ensures Valid() && rows == []
    {
      this.public := public;
      v4, v6, v4Lens, v6Lens, generation := map[], map[], [], [], 0;
      rows, lengths4, lengths6 := [], {}, {};
      cache := EmptyCache();
      EmptyIsBijective<Addr, Entry>(CACHE_CAPACITY);
    }

    /** A successful load answers from the new rows only; a refused one changes nothing. */
    method Load(newRows: seq<Row>) returns (ok: bool)
      requires Valid() && ValidRows(newRows)
      modifies this
      ensures Valid()
      ensures ok <==> |newRows| <= MAX_ENTRIES
      ensures rows == if ok then newRows else old(rows)
      ensures !ok ==> cache == old(cache) && generation == old(generation)
      ensures ok ==> cache == EmptyCache() && generation == old(generation) + 1
    {
      hide Describes;
      hide Descending;
      hide Bijective;
      var t4, t6, l4, l6;
      ok, t4, t6, l4, l6 := BuildTables(newRows);
      if !ok {
        return;
      }
      var s4 := SortedLengths(l4);
      var s6 := SortedLengths(l6);
      v4, v6, v4Lens, v6Lens := t4, t6, s4, s6;
      rows, lengths4, lengths6 := newRows, l4, l6;
      generation := generation + 1;
      cache := EmptyCache();
      EmptyIsBijective<Addr, Entry>(CACHE_CAPACITY);
    }

    /** The table search under the read lock. */
    method SearchTables(a: Addr) returns (answer: Option<GeoRecord>)
      requires Valid() && ValidAddr(a)
      ensures IsAnswer(rows, a, answer)
    {
      hide IsAnswer;
      hide Bijective;
      hide CurrentTrue;
      if a.family == V4 {
        answer := Search(v4, v4Lens, a, rows, lengths4);
      } else {
        answer := Search(v6, v6Lens, a, rows, lengths6);
      }
    }

    /** Public addresses get the longest-prefix answer of the loaded rows, from the cache or the tables. */
    method LookupAddr(a: Addr) returns (answer: Option<GeoRecord>)
      requires Valid() && ValidAddr(a)
      modifies this`cache
      ensures Valid()
      ensures public(a) ==> IsAnswer(rows, a, answer)
      ensures !public(a) ==> answer == None && cache == old(cache)
      ensures public(a) ==> a in cache.entries && cache.entries[a] == Entry(answer, generation)
      ensures public(a) && a in old(cache.entries) && old(cache.entries)[a].generation == generation ==>
        cache == old(cache) && answer == old(cache.entries)[a].answer
      ensures public(a) && a !in old(cache.entries) ==>
        SitsAt(cache, CACHE_CAPACITY, a, old(cache.cursor), 0)
    {
      hide IsAnswer;
      hide Describes;
      hide Descending;
      hide Bijective;
      if !public(a) {
        return None;
      }
      if a in cache.entries && cache.entries[a].generation == generation {
        return cache.entries[a].answer;
      }
      answer := SearchTables(a);
      StoreStaysTrue(cache, generation, rows, a, answer);
      hide SitsAt;
      if a !in cache.entries {
        StoredSits(cache, CACHE_CAPACITY, a, Entry(answer, generation));
      }
      cache := Store(cache, CACHE_CAPACITY, a, Entry(answer, generation));
    }
  }
}
