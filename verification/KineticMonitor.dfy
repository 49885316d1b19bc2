/**
 Burst observation per remote source. Each source keeps a ring of its newest 32
 samples, which implements the observer that remembers the ports of those only.
 */
module KineticMonitor {
  import opened Wrappers
  import opened KineticConfig
  import opened KineticHistory
  import opened RingCache

  const MAX_SOURCES := 2048

  /** A remote address. */
  type Addr = nat

  // ---------------------------------------------------------------- the ring

  datatype Source = Source(
    samples: seq<Sample>, next: nat, count: nat, last: int, reported: bool,
    hits: nat, portless: nat, lastSeen: int, lastPort: nat)

  function NoSamples(): (samples: seq<Sample>)
    ensures |samples| == MAX_SAMPLES_PER_SOURCE
  {
    seq(MAX_SAMPLES_PER_SOURCE, _ => Sample(0, 0))
  }

  function NewSource(): Source {
    Source(NoSamples(), 0, 0, 0, false, 0, 0, 0, 0)
  }

  /** The ring's samples, oldest first. */
  function View(s: Source): seq<Sample> {
    if !Shaped(s) then []
    else if s.count < MAX_SAMPLES_PER_SOURCE then s.samples[..s.count]
    else s.samples[s.next..] + s.samples[..s.next]
  }

  predicate Shaped(s: Source) {
    && |s.samples| == MAX_SAMPLES_PER_SOURCE && s.count <= MAX_SAMPLES_PER_SOURCE && s.next < MAX_SAMPLES_PER_SOURCE
    && (s.count < MAX_SAMPLES_PER_SOURCE ==> s.next == s.count)
  }

  /** The ring's view is the newest part of the history. */
  ghost predicate Follows(s: Source, h: seq<Sample>) {
    Shaped(s) && s.count <= |h| && View(s) == h[|h| - s.count..]
  }

  /** The ring holds the newest part of the history, and a ring with room has only forgotten stale samples. */
  ghost predicate Holds(s: Source, h: seq<Sample>, window: int) {
    && Follows(s, h) && Ordered(h)
    && (s.count < MAX_SAMPLES_PER_SOURCE ==> Stale(h, |h| - s.count, s.last, window))
    && s.last == (if h == [] then 0 else h[|h| - 1].at)
    && (h == [] ==> !s.reported)
  }

  /** Forgetting everything after a pause longer than the window. */
  function Rested(s: Source, now: int, window: int): Source {
    if now - s.last > window then s.(count := 0, next := 0, reported := false) else s
  }

  /** Writing one sample over the oldest. */
  function Pushed(s: Source, now: int, port: nat): Source
    requires s.next < |s.samples|
  {
    s.(last := if now > s.last then now else s.last,
       samples := s.samples[s.next := Sample(now, port)],
       next := (s.next + 1) % MAX_SAMPLES_PER_SOURCE,
       count := if s.count < MAX_SAMPLES_PER_SOURCE then s.count + 1 else s.count)
  }

  lemma RestedHolds(s: Source, h: seq<Sample>, window: int, now: int)
    requires Holds(s, h, window) && now >= s.last
    ensures now - s.last > window ==> Stale(h, |h|, now, window)
  {
    if now - s.last > window {
      forall i | 0 <= i < |h| ensures now - h[i].at > window {
        assert i < |h| - 1 ==> h[i].at <= h[|h| - 1].at;
      }
    }
  }

  lemma PushedView(s: Source, now: int, port: nat)
    requires Shaped(s)
    ensures Shaped(Pushed(s, now, port))
    ensures View(Pushed(s, now, port))
         == (if s.count < MAX_SAMPLES_PER_SOURCE then View(s) else View(s)[1..]) + [Sample(now, port)]
  {
    var n, s' := s.next, Pushed(s, now, port);
    if n + 1 == MAX_SAMPLES_PER_SOURCE {
      assert s'.next == 0;
    } else {
      assert s'.next == n + 1;
    }
  }

  lemma OrderedSnoc(h: seq<Sample>, e: Sample)
    requires Ordered(h) && (h != [] ==> h[|h| - 1].at <= e.at)
    ensures Ordered(h + [e])
  {
    forall i | 0 <= i < |h| ensures h[i].at <= e.at {
      assert i < |h| - 1 ==> h[i].at <= h[|h| - 1].at;
    }
  }

  lemma PushFollows(s: Source, h: seq<Sample>, now: int, port: nat)
    requires Follows(s, h)
    ensures Follows(Pushed(s, now, port), h + [Sample(now, port)])
  {
    PushedView(s, now, port);
    hide View;
    var s', h', k := Pushed(s, now, port), h + [Sample(now, port)], |h| - s.count;
    if s.count < MAX_SAMPLES_PER_SOURCE {
      assert h'[k..] == h[k..] + [Sample(now, port)];
    } else {
      assert h'[k + 1..] == h[k..][1..] + [Sample(now, port)];
    }
  }

  lemma StaleSnoc(h: seq<Sample>, n: nat, e: Sample, now: int, window: int)
    requires n <= |h| && Stale(h, n, now, window) && e.at >= now
    ensures Stale(h + [e], n, e.at, window)
  {
  }

  /** What a ring with room forgot is stale after one more sample. */
  lemma PushStale(s: Source, h: seq<Sample>, window: int, now: int, port: nat)
    requires Holds(s, h, window) && now >= s.last && window >= 0
    ensures var kept := if now - s.last > window then 0 else s.count;
      kept < MAX_SAMPLES_PER_SOURCE ==> kept <= |h| && Stale(h + [Sample(now, port)], |h| - kept, now, window)
  {
    hide Ordered;
    hide View;
    FollowsCount(s, h);
    RestedHolds(s, h, window, now);
    hide Stale;
    hide Follows;
    if now - s.last > window {
      StaleSnoc(h, |h|, Sample(now, port), now, window);
    } else if s.count < MAX_SAMPLES_PER_SOURCE {
      StaleSnoc(h, |h| - s.count, Sample(now, port), s.last, window);
    }
  }

  lemma HoldsOrdered(s: Source, h: seq<Sample>, window: int)
    requires Holds(s, h, window)
    ensures Follows(s, h) && Ordered(h) && (h != [] ==> h[|h| - 1].at == s.last)
  {
    hide Follows;
    hide Ordered;
    hide Stale;
  }

  /** One accepted sample: the ring follows the history. */
  lemma PushHolds(s: Source, h: seq<Sample>, window: int, now: int, port: nat)
    requires Holds(s, h, window) && now > 0 && now >= s.last && window >= 0
    ensures var s' := Pushed(Rested(s, now, window), now, port);
      Holds(s'.(reported := true), h + [Sample(now, port)], window) && s'.last == now
  {
    hide *;
    HoldsOrdered(s, h, window);
    OrderedSnoc(h, Sample(now, port));
    PushStale(s, h, window, now, port);
    RestedFollows(s, h, now, window);
    FollowsCount(Rested(s, now, window), h);
    PushFollows(Rested(s, now, window), h, now, port);
    RestedFields(s, now, window);
    PushedFields(Rested(s, now, window), now, port);
    FollowsReported(Pushed(Rested(s, now, window), now, port), h + [Sample(now, port)]);
    PushedHolds(Pushed(Rested(s, now, window), now, port), h, window, Sample(now, port));
  }

  lemma PushedHolds(s': Source, h: seq<Sample>, window: int, e: Sample)
    requires Follows(s'.(reported := true), h + [e]) && Ordered(h + [e]) && s'.last == e.at && s'.count <= |h| + 1
    requires s'.count < MAX_SAMPLES_PER_SOURCE ==> Stale(h + [e], |h| + 1 - s'.count, e.at, window)
    ensures Holds(s'.(reported := true), h + [e], window)
  {
    hide Follows;
    hide Ordered;
    hide Stale;
  }

  lemma RestedFields(s: Source, now: int, window: int)
    ensures var r := Rested(s, now, window);
      r.last == s.last && r.count == if now - s.last > window then 0 else s.count
  {
  }

  lemma PushedFields(s: Source, now: int, port: nat)
    requires s.next < |s.samples| && now >= s.last
    ensures var p := Pushed(s, now, port);
      p.last == now && p.count == if s.count < MAX_SAMPLES_PER_SOURCE then s.count + 1 else s.count
  {
  }

  lemma RestedFollows(s: Source, h: seq<Sample>, now: int, window: int)
    requires Follows(s, h)
    ensures Follows(Rested(s, now, window), h)
  {
    assert h[|h|..] == [];
  }

  lemma FollowsReported(s: Source, h: seq<Sample>)
    requires Follows(s, h)
    ensures Follows(s.(reported := true), h)
  {
  }

  lemma FollowsCount(s: Source, h: seq<Sample>)
    requires Follows(s, h)
    ensures s.count <= |h| && s.next < |s.samples| && s.count <= MAX_SAMPLES_PER_SOURCE
  {
  }

  // ------------------------------------------------ counting over the ring is counting over the history

  /**
   The ring counts as many samples in the window as the history does, up to its
   size: the forgotten ones are stale, or the ring itself is all in the window.
   */
  lemma RingCountsLikeHistory(s: Source, h: seq<Sample>, window: int)
    requires Holds(s, h, window) && h != []
    ensures var all := CountIn(h, s.last, window);
      CountIn(View(s), s.last, window) == if all < MAX_SAMPLES_PER_SOURCE then all else MAX_SAMPLES_PER_SOURCE
  {
    hide *;
    HoldsSuffix(s, h, window);
    SuffixCounts(h, |h| - s.count, s.last, window);
  }

  /** What the ring holds, as a suffix of the history. */
  lemma HoldsSuffix(s: Source, h: seq<Sample>, window: int)
    requires Holds(s, h, window) && h != []
    ensures Ordered(h) && h[|h| - 1].at == s.last && s.count <= |h| && s.count <= MAX_SAMPLES_PER_SOURCE
    ensures View(s) == h[|h| - s.count..]
    ensures Stale(h, |h| - s.count, s.last, window) || s.count == MAX_SAMPLES_PER_SOURCE
  {
    hide View;
    hide Stale;
    hide Ordered;
  }

  /** The ring sees the same ports as the newest part of the history. */
  lemma RingSeesNewestPorts(s: Source, h: seq<Sample>, window: int)
    requires Holds(s, h, window) && h != []
    ensures PortsIn(View(s), s.last, window) == PortsIn(Newest(h), s.last, window)
  {
    hide *;
    HoldsSuffix(s, h, window);
    NewestSuffix(h);
    if s.count < MAX_SAMPLES_PER_SOURCE {
      SuffixPorts(h, |h| - |Newest(h)|, |h| - s.count, s.last, window);
    }
  }

  lemma NewestSuffix(h: seq<Sample>)
    ensures |Newest(h)| == if |h| < MAX_SAMPLES_PER_SOURCE then |h| else MAX_SAMPLES_PER_SOURCE
    ensures Newest(h) == h[|h| - |Newest(h)|..]
  {
  }

  lemma SuffixPorts(h: seq<Sample>, j: nat, k: nat, now: int, window: int)
    requires j <= k <= |h| && Stale(h, k, now, window)
    ensures PortsIn(h[k..], now, window) == PortsIn(h[j..], now, window)
  {
    StaleFewer(h, j, k, now, window);
    hide *;
    DropStale(h, k, now, window);
    DropStale(h, j, now, window);
  }

  lemma StaleFewer(h: seq<Sample>, j: int, k: int, now: int, window: int)
    requires 0 <= j <= k && Stale(h, k, now, window)
    ensures Stale(h, j, now, window)
  {
  }

  /** The counting loop visits the ring slots in storage order; order does not matter. */
  lemma SlotsCountLikeView(s: Source, now: int, window: int)
    requires Shaped(s)
    ensures CountIn(s.samples[..s.count], now, window) == CountIn(View(s), now, window)
    ensures PortsIn(s.samples[..s.count], now, window) == PortsIn(View(s), now, window)
  {
    if s.count == MAX_SAMPLES_PER_SOURCE {
      var a, b := s.samples[..s.next], s.samples[s.next..];
      assert s.samples[..s.count] == a + b;
      CountConcat(a, b, now, window);
      CountConcat(b, a, now, window);
      PortsConcat(a, b, now, window);
      PortsConcat(b, a, now, window);
    }
  }

  /** The counting loop over the ring. */
  method CountRing(s: Source, now: int, window: int) returns (hits: nat, ports: set<nat>)
    requires Shaped(s)
    ensures hits == CountIn(View(s), now, window) && ports == PortsIn(View(s), now, window)
  {
    hide CountIn;
    hide PortsIn;
    hide View;
    hits, ports := 0, {};
    var j := 0;
    NoSample(now, window);
    assert s.samples[..0] == [];
    while j < s.count
      invariant j <= s.count
      invariant hits == CountIn(s.samples[..j], now, window) && ports == PortsIn(s.samples[..j], now, window)
    {
      var event := s.samples[j];
      assert s.samples[..j + 1] == s.samples[..j] + [event];
      SampleCounts(s.samples[..j], event, now, window);
      if event.at <= now && now - event.at <= window {
        hits := hits + 1;
        ports := ports + {event.port};
      }
      j := j + 1;
    }
    SlotsCountLikeView(s, now, window);
  }

  /** A valid policy asks for no more events than the ring holds, so the ring decides exactly. */
  lemma RingDecidesExactly(s: Source, h: seq<Sample>, cfg: Config)
    requires cfg.Valid() && Holds(s, h, cfg.Window()) && h != []
    ensures (CountIn(View(s), s.last, cfg.Window()) >= cfg.minEvents
             && |PortsIn(View(s), s.last, cfg.Window())| >= cfg.minDistinctPorts)
       <==> Burst(Recent, h, s.last, cfg)
  {
    RingCountsLikeHistory(s, h, cfg.Window());
    RingSeesNewestPorts(s, h, cfg.Window());
  }

  // ---------------------------------------------------------------- runs of one source

  /** The ring and flag of a source implement the observer of its history that remembers the newest ports. */
  ghost predicate Implements(s: Source, i: Observer, cfg: Config) {
    && i == Observed(Recent, i.history, cfg)
    && Holds(s, i.history, cfg.Window()) && s.reported == i.reported && 0 <= s.last <= s.lastSeen
  }

  /** What the monitor does with an accepted sample. */
  method Accept(s: Source, cfg: Config, now: int, port: nat, ghost i: Observer)
    returns (s': Source, candidate: bool, overwrote: bool)
    requires cfg.Valid() && Implements(s, i, cfg)
    requires now > 0 && now >= s.last && s.lastSeen == now
    ensures Justified(i.history, Sample(now, port), cfg, candidate)
    ensures candidate == Reports(Recent, i, Sample(now, port), cfg)
    ensures Implements(s', Observe(Recent, i, Sample(now, port), cfg), cfg)
    ensures s'.lastSeen == now && s'.hits == s.hits && s'.portless == s.portless && s'.lastPort == s.lastPort
    ensures overwrote == (s.count == MAX_SAMPLES_PER_SOURCE && now - s.last <= cfg.Window())
  {
    hide Follows;
    hide Ordered;
    hide Stale;
    hide Observed;
    hide Justified;
    var window := cfg.Window();
    FollowsCount(s, i.history);
    PushHolds(s, i.history, window, now, port);
    s' := s;
    if now - s'.last > window {
      s' := s'.(count := 0, next := 0, reported := false);
    }
    overwrote := s'.count >= MAX_SAMPLES_PER_SOURCE;
    s' := Pushed(s', now, port);
    ghost var h := i.history + [Sample(now, port)];
    FollowsReported(s'.(reported := true), h);
    ShapedAnyway(s', h);
    RingDecidesExactly(s'.(reported := true), h, cfg);
    var hits, ports := CountRing(s', now, window);
    candidate := !s'.reported && hits >= cfg.minEvents && |ports| >= cfg.minDistinctPorts;
    s' := s'.(reported := s'.reported || candidate);
    ReportedDoesNotMatter(s', h, window);
    RecentIsJustified(i.history, Sample(now, port), cfg);
    ObservedSnoc(Recent, i.history, Sample(now, port), cfg);
    ObserveRemembers(Recent, i, Sample(now, port), cfg);
  }

  lemma ShapedAnyway(s: Source, h: seq<Sample>)
    requires Follows(s.(reported := true), h)
    ensures Shaped(s) && View(s) == View(s.(reported := true))
  {
  }

  lemma ReportedDoesNotMatter(s: Source, h: seq<Sample>, window: int)
    requires Holds(s.(reported := true), h, window)
    ensures Holds(s, h, window)
  {
    hide Ordered;
    hide Stale;
  }

  // ---------------------------------------------------------------- the monitor

  /** The tracked addresses in eviction order name the tracked sources, each once. */
  ghost predicate Tracked(order: seq<Addr>, sources: map<Addr, Source>) {
    && |order| == |sources| <= MAX_SOURCES
    && (forall a :: a in order <==> a in sources)
    && (forall i, j :: 0 <= i < j < |order| ==> order[i] != order[j])
  }

  /** Every tracked source implements its observer. */
  ghost predicate AllImplement(sources: map<Addr, Source>, observers: map<Addr, Observer>, cfg: Config) {
    && observers.Keys == sources.Keys
    && forall a :: a in sources ==> Implements(sources[a], observers[a], cfg)
  }

  lemma ImplementUpdate(sources: map<Addr, Source>, observers: map<Addr, Observer>, cfg: Config, a: Addr, s: Source,
      i: Observer)
    requires AllImplement(sources, observers, cfg) && Implements(s, i, cfg)
    ensures AllImplement(sources[a := s], observers[a := i], cfg)
  {
    hide Implements;
  }

  lemma ImplementDrop(sources: map<Addr, Source>, observers: map<Addr, Observer>, cfg: Config, a: Addr)
    requires AllImplement(sources, observers, cfg)
    ensures AllImplement(sources - {a}, observers - {a}, cfg)
  {
    hide Implements;
  }

  lemma ImplementAt(sources: map<Addr, Source>, observers: map<Addr, Observer>, cfg: Config, a: Addr)
    requires AllImplement(sources, observers, cfg) && a in sources
    ensures a in observers && Implements(sources[a], observers[a], cfg)
  {
  }

  lemma SameKeys(sources: map<Addr, Source>, observers: map<Addr, Observer>, cfg: Config)
    requires AllImplement(sources, observers, cfg)
    ensures observers.Keys == sources.Keys
  {
  }

  function ClearAll(sources: map<Addr, Source>): map<Addr, Source> {
    map a | a in sources :: Cleared(sources[a])
  }

  function RestartAll(observers: map<Addr, Observer>): map<Addr, Observer> {
    map a | a in observers :: START
  }

  lemma AllCleared(sources: map<Addr, Source>, observers: map<Addr, Observer>, cfg: Config, next: Config)
    requires AllImplement(sources, observers, cfg)
    ensures AllImplement(ClearAll(sources), RestartAll(observers), next)
  {
    forall a | a in sources ensures Implements(Cleared(sources[a]), START, next) {
      ClearedImplements(sources[a], observers[a], cfg, next);
    }
  }

  lemma ClearedTracked(order: seq<Addr>, sources: map<Addr, Source>)
    requires Tracked(order, sources)
    ensures Tracked(order, ClearAll(sources))
  {
    assert ClearAll(sources).Keys == sources.Keys;
    assert |ClearAll(sources)| == |ClearAll(sources).Keys| && |sources| == |sources.Keys|;
  }

  lemma Without(sources: map<Addr, Source>, a: Addr, s: Source)
    ensures sources[a := s] - {a} == sources - {a}
    ensures a !in sources ==> sources - {a} == sources
  {
  }

  /** No slot is free for a new source. */
  predicate Full(sources: map<Addr, Source>, a: Addr) {
    a !in sources && |sources| == MAX_SOURCES
  }

  /** What an observation does to the counters and the last time and port of its source. */
  predicate Counted(was: Source, after: Source, port: nat, now: int) {
    var inOrder := now >= was.lastSeen;
    && after.hits == was.hits + (if inOrder then 1 else 0)
    && after.portless == was.portless + (if inOrder && port == 0 then 1 else 0)
    && after.lastSeen == (if inOrder then now else was.lastSeen)
    && after.lastPort == (if inOrder then port else was.lastPort)
  }

  /** An observation out of order is lost, and one that is recorded over a sample loses that sample. */
  predicate Lost(was: Source, port: nat, now: int, window: int) {
    || now < was.lastSeen
    || (port != 0 && was.count == MAX_SAMPLES_PER_SOURCE && now - was.last <= window)
  }

  /** A policy change forgets samples only. */
  predicate Unforgotten(was: Source, after: Source) {
    && after.hits == was.hits && after.portless == was.portless && after.lastSeen == was.lastSeen
    && after.lastPort == was.lastPort
  }

  class Monitor {
    var cfg: Config
    var sources: map<Addr, Source>
    var order: seq<Addr>
    var nextEvict: nat
    var blocks: nat
    var candidates: nat
    var dropped: nat
    /** For each source, everything accepted since it was tracked or the policy changed. */
    ghost var observers: map<Addr, Observer>

    ghost predicate Valid() reads this {
      && cfg.Valid() && Tracked(order, sources) && nextEvict < MAX_SOURCES
      && AllImplement(sources, observers, cfg)
    }

    constructor ()
      ensures Valid() && sources == map[] && cfg == DEFAULT_CONFIG
    {
      cfg, sources, order, nextEvict := DEFAULT_CONFIG, map[], [], 0;
      blocks, candidates, dropped := 0, 0, 0;
      observers := map[];
    }

    /** A rejected policy changes nothing; a new one restarts every source's history. */
    method Configure(next: Config) returns (ok: bool)
      requires Valid()
      modifies this`cfg, this`sources, this`observers
      ensures Valid() && ok == next.Valid()
      ensures cfg == if ok then next else old(cfg)
      ensures sources.Keys == old(sources).Keys
      ensures cfg == old(cfg) ==> sources == old(sources) && observers == old(observers)
      ensures cfg != old(cfg) ==> forall a :: a in observers ==> observers[a] == START
      ensures forall a :: a in sources ==> Unforgotten(old(sources)[a], sources[a])
    {
      hide AllImplement;
      hide Implements;
      hide Tracked;
      if !next.Valid() {
        return false;
      }
      if cfg == next {
        return true;
      }
      AllCleared(sources, observers, cfg, next);
      ClearedTracked(order, sources);
      cfg := next;
      sources := ClearAll(sources);
      observers := RestartAll(observers);
      return true;
    }

    /** Finds the source of an address, starting one and evicting round-robin if need be. */
    method Track(addr: Addr)
      requires Valid()
      modifies this`sources, this`order, this`nextEvict, this`dropped, this`observers
      ensures Valid() && addr in sources
      ensures addr in old(sources) ==> sources == old(sources) && observers == old(observers)
      ensures addr !in old(sources) ==> sources[addr] == NewSource() && addr in observers && observers[addr] == START
      ensures forall a :: a in observers && a != addr ==> a in old(observers) && observers[a] == old(observers)[a]
      ensures |sources| <= MAX_SOURCES
      ensures addr !in old(sources) && old(|sources|) < MAX_SOURCES ==>
        sources == old(sources)[addr := NewSource()] && order == old(order) + [addr] && nextEvict == old(nextEvict)
      ensures addr !in old(sources) && old(|sources|) == MAX_SOURCES ==>
        && old(nextEvict) < |old(order)|
        && sources == (old(sources) - {old(order)[old(nextEvict)]})[addr := NewSource()]
        && order == old(order)[old(nextEvict) := addr] && nextEvict == (old(nextEvict) + 1) % MAX_SOURCES
      ensures dropped == old(dropped) + if addr !in old(sources) && old(|sources|) == MAX_SOURCES then 1 else 0
    {
      hide AllImplement;
      hide Implements;
      hide Tracked;
      hide NewSource;
      TrackedSize(order, sources);
      if addr in sources {
        return;
      }
      if |sources| >= MAX_SOURCES {
        EvictFor(addr);
      } else {
        AddSource(addr);
      }
      TrackedSize(order, sources);
    }

    /** Starts a source while there is room. */
    method AddSource(addr: Addr)
      requires Valid() && addr !in sources && |sources| < MAX_SOURCES
      modifies this`sources, this`order, this`observers
      ensures Valid() && order == old(order) + [addr]
      ensures sources == old(sources)[addr := NewSource()] && observers == old(observers)[addr := START]
    {
      hide AllImplement;
      hide Implements;
      hide Tracked;
      hide NewSource;
      NewImplements(cfg);
      AddTracked(order, sources, addr, NewSource());
      ImplementUpdate(sources, observers, cfg, addr, NewSource(), START);
      order := order + [addr];
      sources := sources[addr := NewSource()];
      observers := observers[addr := START];
    }

    /** Replaces the source under the eviction cursor by a new one. */
    method EvictFor(addr: Addr)
      requires Valid() && addr !in sources && nextEvict < |order|
      modifies this`sources, this`order, this`nextEvict, this`dropped, this`observers
      ensures Valid()
      ensures sources == (old(sources) - {old(order)[old(nextEvict)]})[addr := NewSource()]
      ensures observers == (old(observers) - {old(order)[old(nextEvict)]})[addr := START]
      ensures order == old(order)[old(nextEvict) := addr] && nextEvict == (old(nextEvict) + 1) % MAX_SOURCES
      ensures dropped == old(dropped) + 1
    {
      hide AllImplement;
      hide Implements;
      hide Tracked;
      var victim := order[nextEvict];
      EvictTracked(order, sources, nextEvict, addr, NewSource());
      ImplementDrop(sources, observers, cfg, victim);
      NewImplements(cfg);
      ImplementUpdate(sources - {victim}, observers - {victim}, cfg, addr, NewSource(), START);
      sources := (sources - {victim})[addr := NewSource()];
      observers := (observers - {victim})[addr := START];
      order := order[nextEvict := addr];
      nextEvict := (nextEvict + 1) % MAX_SOURCES;
      dropped := dropped + 1;
    }

    /**
     One blocked inbound event; `addr` is absent for an unusable source address.
     A sample with a port and a time not before the last one is accepted, and a
     candidate is reported exactly when the observer that remembers the newest ports
     reports it. It is then a burst of the whole history, and as long as at most 32
     samples lie in the window it is exactly what an observer of the whole history reports.
     */
    method ObserveBlockedInbound(addr: Option<Addr>, port: nat, now: int) returns (candidate: bool)
      requires Valid()
      modifies this
      ensures Valid() && cfg == old(cfg)
      ensures blocks == old(blocks) + if addr.Some? && now != 0 then 1 else 0
      ensures candidates == old(candidates) + if candidate then 1 else 0
      ensures addr.None? || now == 0 ==> !candidate && sources == old(sources) && observers == old(observers)
      ensures addr.Some? && now != 0 ==>
        var a := addr.value;
        var before := if a in old(sources) then old(observers)[a] else START;
        var was := if a in old(sources) then old(sources)[a] else NewSource();
        var accepted := now >= was.lastSeen && port != 0;
        && a in observers
        && observers[a] == (if accepted then Observe(Recent, before, Sample(now, port), cfg) else before)
        && candidate == (accepted && Reports(Recent, before, Sample(now, port), cfg))
        && (accepted ==> Justified(before.history, Sample(now, port), cfg, candidate))
        && a in sources
        && Counted(was, sources[a], port, now)
        && (!Full(old(sources), a) ==> sources - {a} == old(sources) - {a})
        && (Full(old(sources), a) ==>
              && old(nextEvict) < |old(order)|
              && sources - {a} == old(sources) - {old(order)[old(nextEvict)]})
        && dropped == old(dropped)
             + (if Full(old(sources), a) then 1 else 0) + (if Lost(was, port, now, cfg.Window()) then 1 else 0)
        && forall x :: x in observers && x != a ==> x in old(observers) && observers[x] == old(observers)[x]
    {
      hide Justified;
      hide Observed;
      hide Reports;
      hide Observe;
      hide AllImplement;
      hide Implements;
      hide Tracked;
      SameKeys(sources, observers, cfg);
      if addr.None? || now == 0 {
        return false;
      }
      blocks := blocks + 1;
      TrackedSize(order, sources);
      Track(addr.value);
      SameKeys(sources, observers, cfg);
      ghost var tracked := sources;
      candidate := ObserveTracked(addr.value, port, now);
      Without(tracked, addr.value, sources[addr.value]);
      Without(old(sources), addr.value, NewSource());
      if Full(old(sources), addr.value) {
        Without(old(sources) - {old(order)[old(nextEvict)]}, addr.value, NewSource());
      }
    }

    /** The part of an observation after its source was found. */
    method ObserveTracked(a: Addr, port: nat, now: int) returns (candidate: bool)
      requires Valid() && a in sources && a in observers && now != 0
      modifies this`sources, this`observers, this`dropped, this`candidates
      ensures Valid() && candidates == old(candidates) + if candidate then 1 else 0
      ensures var before := old(observers)[a];
        var accepted := now >= old(sources)[a].lastSeen && port != 0;
        && observers == old(observers)[
             a := if accepted then Observe(Recent, before, Sample(now, port), cfg) else before]
        && candidate == (accepted && Reports(Recent, before, Sample(now, port), cfg))
        && (accepted ==> Justified(before.history, Sample(now, port), cfg, candidate))
        && sources.Keys == old(sources.Keys)
        && sources == old(sources)[a := sources[a]]
        && Counted(old(sources)[a], sources[a], port, now)
        && dropped == old(dropped) + if Lost(old(sources)[a], port, now, cfg.Window()) then 1 else 0
    {
      hide Justified;
      hide Observed;
      hide Reports;
      hide Observe;
      hide Holds;
      hide Tracked;
      hide AllImplement;
      var s := sources[a];
      ImplementAt(sources, observers, cfg, a);
      if now < s.lastSeen {
        dropped := dropped + 1;
        assert observers == observers[a := observers[a]];
        return false;
      }
      s := s.(hits := s.hits + 1, lastSeen := now, lastPort := port);
      SeenImplements(sources[a], s, observers[a], cfg);
      if port == 0 {
        s := s.(portless := s.portless + 1);
        SeenImplements(sources[a], s, observers[a], cfg);
        UpdateTracked(order, sources, a, s);
        ImplementUpdate(sources, observers, cfg, a, s, observers[a]);
        sources := sources[a := s];
        assert observers == observers[a := observers[a]];
        return false;
      }
      var overwrote;
      s, candidate, overwrote := Accept(s, cfg, now, port, observers[a]);
      UpdateTracked(order, sources, a, s);
      ImplementUpdate(sources, observers, cfg, a, s, Observe(Recent, observers[a], Sample(now, port), cfg));
      sources := sources[a := s];
      observers := observers[a := Observe(Recent, observers[a], Sample(now, port), cfg)];
      if overwrote {
        dropped := dropped + 1;
      }
      if candidate {
        candidates := candidates + 1;
      }
    }
  }

  function Cleared(s: Source): Source {
    s.(samples := NoSamples(), next := 0, count := 0, reported := false, last := 0)
  }

  lemma ClearedImplements(s: Source, i: Observer, cfg: Config, next: Config)
    requires Implements(s, i, cfg)
    ensures Implements(Cleared(s), START, next)
  {
  }

  lemma NewImplements(cfg: Config)
    ensures Implements(NewSource(), START, cfg)
  {
  }

  /** Counters and the time last seen do not affect the ring. */
  lemma SeenImplements(s: Source, seen: Source, i: Observer, cfg: Config)
    requires Implements(s, i, cfg) && seen.lastSeen >= s.lastSeen
    requires seen == s.(
      hits := seen.hits, portless := seen.portless, lastSeen := seen.lastSeen, lastPort := seen.lastPort)
    ensures Implements(seen, i, cfg)
  {
    hide Ordered;
    hide Stale;
    hide Observed;
  }

  lemma UpdateTracked(order: seq<Addr>, sources: map<Addr, Source>, a: Addr, s: Source)
    requires Tracked(order, sources) && a in sources
    ensures Tracked(order, sources[a := s])
  {
    assert sources[a := s].Keys == sources.Keys;
  }

  lemma AddTracked(order: seq<Addr>, sources: map<Addr, Source>, a: Addr, s: Source)
    requires Tracked(order, sources) && a !in sources && |sources| < MAX_SOURCES
    ensures Tracked(order + [a], sources[a := s])
  {
  }

  lemma EvictTracked(order: seq<Addr>, sources: map<Addr, Source>, k: nat, a: Addr, s: Source)
    requires Tracked(order, sources) && a !in sources && k < |order|
    ensures Tracked(order[k := a], (sources - {order[k]})[a := s])
  {
    var order', sources' := order[k := a], (sources - {order[k]})[a := s];
    RemoveOne(sources, order[k]);
    forall x ensures x in order' <==> x in sources' {
      if x in order' {
        var i :| 0 <= i < |order'| && order'[i] == x;
        assert i != k ==> order[i] in order && order[i] != order[k];
      }
      if x in sources' && x != a {
        var i :| 0 <= i < |order| && order[i] == x;
        assert order'[i] == x;
      }
      if x == a {
        assert order'[k] == a;
      }
    }
  }

  lemma TrackedSize(order: seq<Addr>, sources: map<Addr, Source>)
    requires Tracked(order, sources)
    ensures |order| == |sources| <= MAX_SOURCES
    ensures forall i :: 0 <= i < |order| ==> order[i] in sources
  {
  }
}
