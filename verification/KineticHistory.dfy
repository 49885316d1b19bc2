/**
 What an observer that forgets nothing sees of one remote source, and when the
 newest 32 samples are enough to see the same.
 */
module KineticHistory {
  import opened KineticConfig

  datatype Sample = Sample(at: int, port: nat)

  // ---------------------------------------------------------------- samples in the window

  predicate InWindow(s: Sample, now: int, window: int) {
    s.at <= now && now - s.at <= window
  }

  /** How many samples of a history lie in the window. */
  function CountIn(h: seq<Sample>, now: int, window: int): (n: nat)
    ensures n <= |h|
  {
    if h == [] then 0
    else CountIn(h[..|h| - 1], now, window) + if InWindow(h[|h| - 1], now, window) then 1 else 0
  }

  /** The ports of the samples in the window. */
  function PortsIn(h: seq<Sample>, now: int, window: int): set<nat> {
    set i | 0 <= i < |h| && InWindow(h[i], now, window) :: h[i].port
  }

  /** The newest samples, as many as a ring holds. */
  function Newest(h: seq<Sample>): seq<Sample> {
    if |h| <= MAX_SAMPLES_PER_SOURCE then h else h[|h| - MAX_SAMPLES_PER_SOURCE..]
  }

  ghost predicate Ordered(h: seq<Sample>) {
    forall i, j :: 0 <= i < j < |h| ==> h[i].at <= h[j].at
  }

  /** A pause longer than the window separates the history from `now`. */
  predicate Quiet(h: seq<Sample>, now: int, window: int) {
    h == [] || now - h[|h| - 1].at > window
  }

  /** All of the first `n` samples left the window before `now`. */
  ghost predicate Stale(h: seq<Sample>, n: nat, now: int, window: int) {
    forall i :: 0 <= i < n && i < |h| ==> now - h[i].at > window
  }

  lemma {:induction false} CountConcat(a: seq<Sample>, b: seq<Sample>, now: int, window: int)
    ensures CountIn(a + b, now, window) == CountIn(a, now, window) + CountIn(b, now, window)
    decreases |b|
  {
    if b == [] {
      assert a + b == a;
    } else {
      assert (a + b)[..|a + b| - 1] == a + b[..|b| - 1];
      CountConcat(a, b[..|b| - 1], now, window);
    }
  }

  lemma {:induction false} CountStale(h: seq<Sample>, now: int, window: int)
    requires Stale(h, |h|, now, window)
    ensures CountIn(h, now, window) == 0
  {
    if h != [] {
      CountStale(h[..|h| - 1], now, window);
    }
  }

  lemma {:induction false} CountFull(h: seq<Sample>, now: int, window: int)
    requires forall i :: 0 <= i < |h| ==> InWindow(h[i], now, window)
    ensures CountIn(h, now, window) == |h|
  {
    if h != [] {
      CountFull(h[..|h| - 1], now, window);
    }
  }

  /** In an ordered history that ends at `now`, an out-of-window sample makes all earlier ones stale. */
  lemma StaleBefore(h: seq<Sample>, k: nat, now: int, window: int)
    requires Ordered(h) && k < |h| && h[|h| - 1].at <= now && !InWindow(h[k], now, window)
    ensures Stale(h, k + 1, now, window)
  {
    assert k < |h| - 1 ==> h[k].at <= h[|h| - 1].at;
  }

  lemma PortsConcat(a: seq<Sample>, b: seq<Sample>, now: int, window: int)
    ensures PortsIn(a + b, now, window) == PortsIn(a, now, window) + PortsIn(b, now, window)
  {
    var all := a + b;
    forall p | p in PortsIn(a, now, window) + PortsIn(b, now, window) ensures p in PortsIn(all, now, window) {
      if p in PortsIn(a, now, window) {
        var i :| 0 <= i < |a| && InWindow(a[i], now, window) && a[i].port == p;
        assert all[i] == a[i];
      } else {
        var i :| 0 <= i < |b| && InWindow(b[i], now, window) && b[i].port == p;
        assert all[|a| + i] == b[i];
      }
    }
    forall p | p in PortsIn(all, now, window) ensures p in PortsIn(a, now, window) + PortsIn(b, now, window) {
      var i :| 0 <= i < |all| && InWindow(all[i], now, window) && all[i].port == p;
      if i < |a| {
        assert a[i] == all[i];
      } else {
        assert b[i - |a|] == all[i];
      }
    }
  }

  lemma NoSample(now: int, window: int)
    ensures CountIn([], now, window) == 0 && PortsIn([], now, window) == {}
  {
  }

  /** One more sample. */
  lemma SampleCounts(h: seq<Sample>, e: Sample, now: int, window: int)
    ensures CountIn(h + [e], now, window) == CountIn(h, now, window) + if InWindow(e, now, window) then 1 else 0
    ensures PortsIn(h + [e], now, window) == PortsIn(h, now, window) + if InWindow(e, now, window) then {e.port} else {}
  {
    hide CountIn;
    hide PortsIn;
    CountConcat(h, [e], now, window);
    PortsConcat(h, [e], now, window);
    OneSample(e, now, window);
  }

  lemma OneSample(e: Sample, now: int, window: int)
    ensures CountIn([e], now, window) == (if InWindow(e, now, window) then 1 else 0)
    ensures PortsIn([e], now, window) == (if InWindow(e, now, window) then {e.port} else {})
  {
    assert [e][..0] == [] && [e][0] == e;
  }

  /** Stale samples may be dropped without changing count or ports. */
  lemma DropStale(h: seq<Sample>, k: nat, now: int, window: int)
    requires k <= |h| && Stale(h, k, now, window)
    ensures CountIn(h[k..], now, window) == CountIn(h, now, window)
    ensures PortsIn(h[k..], now, window) == PortsIn(h, now, window)
  {
    assert h == h[..k] + h[k..];
    CountConcat(h[..k], h[k..], now, window);
    CountStale(h[..k], now, window);
    PortsConcat(h[..k], h[k..], now, window);
    assert PortsIn(h[..k], now, window) == {};
  }

  /** From the first in-window sample on, everything is in the window. */
  lemma CountFrom(h: seq<Sample>, k: nat, now: int, window: int)
    requires Ordered(h) && k < |h| && h[|h| - 1].at <= now && InWindow(h[k], now, window)
    ensures CountIn(h[k..], now, window) == |h| - k
    ensures CountIn(h, now, window) >= |h| - k
  {
    forall i | 0 <= i < |h[k..]| ensures InWindow(h[k..][i], now, window) {
      assert i > 0 ==> h[k].at <= h[k + i].at;
      assert k + i < |h| - 1 ==> h[k + i].at <= h[|h| - 1].at;
    }
    CountFull(h[k..], now, window);
    assert h == h[..k] + h[k..];
    CountConcat(h[..k], h[k..], now, window);
  }

  /** Keeping only a suffix of 32, or dropping only stale samples, counts right up to 32. */
  lemma SuffixCounts(h: seq<Sample>, k: nat, now: int, window: int)
    requires Ordered(h) && h != [] && h[|h| - 1].at <= now && k <= |h|
    requires |h| - k <= MAX_SAMPLES_PER_SOURCE
    requires Stale(h, k, now, window) || |h| - k == MAX_SAMPLES_PER_SOURCE
    ensures var all := CountIn(h, now, window);
      CountIn(h[k..], now, window) == if all < MAX_SAMPLES_PER_SOURCE then all else MAX_SAMPLES_PER_SOURCE
  {
    if k < |h| && InWindow(h[k], now, window) && |h| - k == MAX_SAMPLES_PER_SOURCE {
      CountFrom(h, k, now, window);
    } else {
      if !Stale(h, k, now, window) {
        StaleBefore(h, k, now, window);
      }
      DropStale(h, k, now, window);
    }
  }

  lemma PortsGrow(a: seq<Sample>, b: seq<Sample>, now: int, window: int)
    ensures PortsIn(b, now, window) <= PortsIn(a + b, now, window)
    ensures |PortsIn(b, now, window)| <= |PortsIn(a + b, now, window)|
  {
    PortsConcat(a, b, now, window);
    SubsetSize(PortsIn(b, now, window), PortsIn(a + b, now, window));
  }

  lemma {:induction false} SubsetSize(a: set<nat>, b: set<nat>)
    requires a <= b
    ensures |a| <= |b|
  {
    if a != {} {
      var x :| x in a;
      SubsetSize(a - {x}, b - {x});
    }
  }

  // ---------------------------------------------------------------- bursts

  /** Whether an observer remembers the ports of the newest 32 samples only, or of all of them. */
  datatype Memory = Recent | Whole

  function Remembered(m: Memory, h: seq<Sample>): seq<Sample> {
    if m.Whole? then h else Newest(h)
  }

  /** A burst: enough samples in the window, and enough ports among those remembered. */
  predicate Burst(m: Memory, h: seq<Sample>, now: int, cfg: Config) {
    && CountIn(h, now, cfg.Window()) >= cfg.minEvents
    && |PortsIn(Remembered(m, h), now, cfg.Window())| >= cfg.minDistinctPorts
  }

  /** A burst among the newest samples is one of the whole history. */
  lemma BurstIsReal(h: seq<Sample>, now: int, cfg: Config)
    requires Burst(Recent, h, now, cfg)
    ensures Burst(Whole, h, now, cfg)
  {
    var k := |h| - |Newest(h)|;
    assert h == h[..k] + Newest(h);
    PortsGrow(h[..k], Newest(h), now, cfg.Window());
  }

  /** While no more than 32 samples lie in the window, port diversity is exact as well. */
  lemma PortsExactWhenFew(h: seq<Sample>, now: int, window: int)
    requires Ordered(h) && h != [] && h[|h| - 1].at == now && window >= 0
    requires CountIn(h, now, window) <= MAX_SAMPLES_PER_SOURCE
    ensures PortsIn(Newest(h), now, window) == PortsIn(h, now, window)
  {
    hide PortsIn;
    hide CountIn;
    var k := |h| - |Newest(h)|;
    assert Newest(h) == h[k..];
    if k > 0 {
      if InWindow(h[k - 1], now, window) {
        CountFrom(h, k - 1, now, window);
      } else {
        StaleBefore(h, k - 1, now, window);
      }
    }
    DropStale(h, k, now, window);
  }

  /** `h` is a history that ends at `now` with `n` samples in the window. */
  ghost predicate EndsWith(h: seq<Sample>, now: int, window: int, n: nat) {
    h != [] && Ordered(h) && h[|h| - 1].at == now && CountIn(h, now, window) == n
  }

  ghost predicate SameDecision(h: seq<Sample>, now: int, cfg: Config) {
    Burst(Recent, h, now, cfg) <==> Burst(Whole, h, now, cfg)
  }

  /**
   Under every valid policy the newest 32 samples decide like the whole history on all
   histories with `n` samples in the window if and only if `n` is at most 32.
   */
  lemma RecentIsEnoughIff(cfg: Config, now: int, n: nat)
    requires cfg.Valid() && n >= 1
    ensures (forall h :: EndsWith(h, now, cfg.Window(), n) ==> SameDecision(h, now, cfg))
       <==> n <= MAX_SAMPLES_PER_SOURCE
  {
    if n <= MAX_SAMPLES_PER_SOURCE {
      forall h | EndsWith(h, now, cfg.Window(), n) ensures SameDecision(h, now, cfg) {
        PortsExactWhenFew(h, now, cfg.Window());
      }
    } else {
      Diverges(cfg, now, n);
    }
  }

  /** One sample on port 1, many on port 2, and at the end one on each of the ports 2 to `ports`; all at once. */
  function Scan(now: int, n: nat, ports: nat): (h: seq<Sample>)
    requires 2 <= ports <= n
    ensures |h| == n
    ensures forall i :: 0 <= i < n ==>
      h[i] == Sample(now, if i == 0 then 1 else if i < n - ports + 1 then 2 else ports - (n - 1 - i))
  {
    seq(n, i requires 0 <= i < n =>
      Sample(now, if i == 0 then 1 else if i < n - ports + 1 then 2 else ports - (n - 1 - i)))
  }

  /** The ports from `low` to `high`. */
  function Range(low: nat, high: nat): (r: set<nat>)
    requires low <= high + 1
    ensures forall p :: p in r <==> low <= p <= high
    ensures |r| == high + 1 - low
    decreases high + 1 - low
  {
    if high < low then {} else if high == low then {low} else Range(low, high - 1) + {high}
  }

  ghost predicate UsesPort(h: seq<Sample>, p: nat) {
    exists i :: 0 <= i < |h| && h[i].port == p
  }

  lemma PortsAre(h: seq<Sample>, now: int, window: int, ports: set<nat>)
    requires 0 <= window && forall i :: 0 <= i < |h| ==> h[i].at == now && h[i].port in ports
    requires forall p :: p in ports ==> UsesPort(h, p)
    ensures PortsIn(h, now, window) == ports
  {
    forall p | p in ports ensures p in PortsIn(h, now, window) {
      var i :| 0 <= i < |h| && h[i].port == p;
      assert InWindow(h[i], now, window);
    }
  }

  lemma ScanPorts(now: int, window: int, n: nat, ports: nat)
    requires 2 <= ports <= n && 0 <= window
    ensures |PortsIn(Scan(now, n, ports), now, window)| == ports
  {
    hide PortsIn;
    hide Range;
    var h := Scan(now, n, ports);
    forall p | p in Range(1, ports) ensures UsesPort(h, p) {
      assert h[if p == 1 then 0 else n - 1 - (ports - p)].port == p;
    }
    PortsAre(h, now, window, Range(1, ports));
  }

  lemma ScanNewestPorts(now: int, window: int, n: nat, ports: nat)
    requires 2 <= ports <= 16 && MAX_SAMPLES_PER_SOURCE < n && 0 <= window
    ensures |PortsIn(Newest(Scan(now, n, ports)), now, window)| == ports - 1
  {
    hide PortsIn;
    hide Range;
    var recent := Newest(Scan(now, n, ports));
    forall p | p in Range(2, ports) ensures UsesPort(recent, p) {
      assert recent[MAX_SAMPLES_PER_SOURCE - 1 - (ports - p)].port == p;
    }
    PortsAre(recent, now, window, Range(2, ports));
  }

  /** With more than 32 samples in the window there is a burst that the newest 32 do not show. */
  lemma Diverges(cfg: Config, now: int, n: nat)
    requires cfg.Valid() && n > MAX_SAMPLES_PER_SOURCE
    ensures var h := Scan(now, n, cfg.minDistinctPorts);
      EndsWith(h, now, cfg.Window(), n) && Burst(Whole, h, now, cfg) && !Burst(Recent, h, now, cfg)
      && !SameDecision(h, now, cfg)
  {
    var h := Scan(now, n, cfg.minDistinctPorts);
    hide PortsIn;
    ScanPorts(now, cfg.Window(), n, cfg.minDistinctPorts);
    ScanNewestPorts(now, cfg.Window(), n, cfg.minDistinctPorts);
    CountFull(h, now, cfg.Window());
  }

  // ---------------------------------------------------------------- observers

  /** What an observer keeps of a source. */
  datatype Observer = Observer(history: seq<Sample>, reported: bool)

  const START := Observer([], false)

  /** Whether a sample completes a burst that was not reported since the last pause. */
  predicate Reports(m: Memory, o: Observer, e: Sample, cfg: Config) {
    (Quiet(o.history, e.at, cfg.Window()) || !o.reported) && Burst(m, o.history + [e], e.at, cfg)
  }

  function Observe(m: Memory, o: Observer, e: Sample, cfg: Config): Observer {
    Observer(o.history + [e], (o.reported && !Quiet(o.history, e.at, cfg.Window())) || Reports(m, o, e, cfg))
  }

  /** The observer after a run of samples. */
  function Observed(m: Memory, samples: seq<Sample>, cfg: Config): Observer {
    if samples == [] then START
    else Observe(m, Observed(m, samples[..|samples| - 1], cfg), samples[|samples| - 1], cfg)
  }

  lemma ObserveRemembers(m: Memory, o: Observer, e: Sample, cfg: Config)
    ensures Observe(m, o, e, cfg).history == o.history + [e]
  {
    hide Reports;
    hide Quiet;
  }

  lemma ObservedSnoc(m: Memory, samples: seq<Sample>, e: Sample, cfg: Config)
    ensures Observed(m, samples + [e], cfg) == Observe(m, Observed(m, samples, cfg), e, cfg)
  {
    hide Observe;
    assert (samples + [e])[..|samples|] == samples;
  }

  lemma {:induction false} ObservedRemembers(m: Memory, samples: seq<Sample>, cfg: Config)
    ensures Observed(m, samples, cfg).history == samples
  {
    hide Observe;
    if samples != [] {
      var front, last := samples[..|samples| - 1], samples[|samples| - 1];
      ObservedRemembers(m, front, cfg);
      ObserveRemembers(m, Observed(m, front, cfg), last, cfg);
      assert samples == front + [last];
    }
  }

  lemma StaysReported(m: Memory, o: Observer, e: Sample, cfg: Config)
    requires Reports(m, o, e, cfg) || (o.reported && !Quiet(o.history, e.at, cfg.Window()))
    ensures Observe(m, o, e, cfg).reported
  {
    hide Reports;
    hide Quiet;
  }

  lemma {:induction false} ReportedUntilQuiet(m: Memory, samples: seq<Sample>, cfg: Config, i: nat, j: nat)
    requires i < j <= |samples|
    requires Reports(m, Observed(m, samples[..i], cfg), samples[i], cfg)
    requires forall k :: i < k < j ==> samples[k].at - samples[k - 1].at <= cfg.Window()
    ensures Observed(m, samples[..j], cfg).reported
    decreases j
  {
    hide Reports;
    hide Observe;
    hide Observed;
    var before := samples[..j - 1];
    if j > i + 1 {
      ReportedUntilQuiet(m, samples, cfg, i, j - 1);
      ObservedRemembers(m, before, cfg);
      assert samples[j - 1].at - samples[j - 2].at <= cfg.Window();
    }
    StaysReported(m, Observed(m, before, cfg), samples[j - 1], cfg);
    assert samples[..j] == before + [samples[j - 1]];
    ObservedSnoc(m, before, samples[j - 1], cfg);
  }

  /** A source is reported at most once between two pauses longer than the window. */
  lemma OneReportPerBurst(m: Memory, samples: seq<Sample>, cfg: Config, i: nat, j: nat)
    requires i < j < |samples|
    requires Reports(m, Observed(m, samples[..i], cfg), samples[i], cfg)
    requires Reports(m, Observed(m, samples[..j], cfg), samples[j], cfg)
    ensures exists k :: i < k <= j && samples[k].at - samples[k - 1].at > cfg.Window()
  {
    hide Burst;
    ObservedRemembers(m, samples[..j], cfg);
    if forall k :: i < k < j ==> samples[k].at - samples[k - 1].at <= cfg.Window() {
      ReportedUntilQuiet(m, samples, cfg, i, j);
      assert samples[j].at - samples[j - 1].at > cfg.Window();
    } else {
      var k :| i < k < j && samples[k].at - samples[k - 1].at > cfg.Window();
    }
  }

  // ---------------------------------------------------------------- what is counted and what is reported

  /** The samples no older than the window and not after `now`. */
  ghost function Within(h: seq<Sample>, now: int, window: int): set<int> {
    set i | 0 <= i < |h| && h[i].at <= now && now - h[i].at <= window
  }

  /** The count is the number of samples within the window, its edge included, and the ports are theirs. */
  lemma {:induction false} CountsWithin(h: seq<Sample>, now: int, window: int)
    ensures CountIn(h, now, window) == |Within(h, now, window)|
    ensures forall p :: p in PortsIn(h, now, window) <==> exists i :: i in Within(h, now, window) && h[i].port == p
  {
    hide PortsIn;
    if h != [] {
      var n := |h| - 1;
      CountsWithin(h[..n], now, window);
      var before, all := Within(h[..n], now, window), Within(h, now, window);
      assert all == if InWindow(h[n], now, window) then before + {n} else before;
    }
    PortsWithin(h, now, window);
  }

  lemma PortsWithin(h: seq<Sample>, now: int, window: int)
    ensures forall p :: p in PortsIn(h, now, window) <==> exists i :: i in Within(h, now, window) && h[i].port == p
  {
    forall p | p in PortsIn(h, now, window) ensures exists i :: i in Within(h, now, window) && h[i].port == p {
      var i :| 0 <= i < |h| && InWindow(h[i], now, window) && h[i].port == p;
      assert i in Within(h, now, window);
    }
  }

  /** Sample `j` completes a burst. */
  predicate BurstAt(m: Memory, samples: seq<Sample>, cfg: Config, j: nat)
    requires j < |samples|
  {
    Burst(m, samples[..j + 1], samples[j].at, cfg)
  }

  /** A pause longer than the window comes just before sample `k`. */
  predicate PauseAt(samples: seq<Sample>, cfg: Config, k: int) {
    0 < k < |samples| && samples[k].at - samples[k - 1].at > cfg.Window()
  }

  /** A pause longer than the window lies between samples `i` and `j`. */
  ghost predicate PauseBetween(samples: seq<Sample>, cfg: Config, i: int, j: int)
    requires j < |samples|
  {
    exists k :: 0 <= i < k <= j && PauseAt(samples, cfg, k)
  }

  /** Some sample before `j` completed a burst, and no pause came since. */
  ghost predicate BurstBefore(m: Memory, samples: seq<Sample>, cfg: Config, j: nat)
    requires j <= |samples|
  {
    exists i :: 0 <= i < j && BurstAt(m, samples, cfg, i) && !PauseBetween(samples, cfg, i, j - 1)
  }

  lemma {:induction false} ReportedIffBurst(m: Memory, samples: seq<Sample>, cfg: Config, j: nat)
    requires j <= |samples|
    ensures Observed(m, samples[..j], cfg).reported <==> BurstBefore(m, samples, cfg, j)
  {
    hide Burst;
    if j > 0 {
      var before, e := samples[..j - 1], samples[j - 1];
      ReportedIffBurst(m, samples, cfg, j - 1);
      ObservedRemembers(m, before, cfg);
      assert samples[..j] == before + [e];
      ObservedSnoc(m, before, e, cfg);
      hide Observed;
      BurstStep(m, samples, cfg, j);
    }
  }

  /** The flag after one more sample. */
  lemma BurstStep(m: Memory, samples: seq<Sample>, cfg: Config, j: nat)
    requires 0 < j <= |samples|
    ensures BurstBefore(m, samples, cfg, j) <==>
      BurstAt(m, samples, cfg, j - 1)
      || (BurstBefore(m, samples, cfg, j - 1) && !Quiet(samples[..j - 1], samples[j - 1].at, cfg.Window()))
  {
    hide BurstAt;
    if BurstAt(m, samples, cfg, j - 1) {
      assert !PauseBetween(samples, cfg, j - 1, j - 1);
    }
    var last, earlier := j - 1, j - 2;
    forall i | 0 <= i < last
      ensures PauseBetween(samples, cfg, i, last) <==>
        PauseBetween(samples, cfg, i, earlier) || Quiet(samples[..last], samples[last].at, cfg.Window())
    {
      PauseStep(samples, cfg, i, j);
    }
  }

  lemma PauseStep(samples: seq<Sample>, cfg: Config, i: int, j: nat)
    requires 0 <= i < j - 1 < |samples|
    ensures PauseBetween(samples, cfg, i, j - 1) <==>
      PauseBetween(samples, cfg, i, j - 2) || Quiet(samples[..j - 1], samples[j - 1].at, cfg.Window())
  {
    if Quiet(samples[..j - 1], samples[j - 1].at, cfg.Window()) {
      assert PauseAt(samples, cfg, j - 1);
    }
  }

  /**
   A sample is reported if and only if it completes a burst and every earlier burst lies before a
   pause longer than the window.
   */
  lemma ReportsExactly(m: Memory, samples: seq<Sample>, cfg: Config, j: nat)
    requires j < |samples|
    ensures Reports(m, Observed(m, samples[..j], cfg), samples[j], cfg) <==>
      && BurstAt(m, samples, cfg, j)
      && forall i :: 0 <= i < j && BurstAt(m, samples, cfg, i) ==> PauseBetween(samples, cfg, i, j)
  {
    hide Burst;
    ReportedIffBurst(m, samples, cfg, j);
    ObservedRemembers(m, samples[..j], cfg);
    assert samples[..j] + [samples[j]] == samples[..j + 1];
    hide Observed;
    forall i | 0 <= i < j
      ensures PauseBetween(samples, cfg, i, j) <==>
        PauseBetween(samples, cfg, i, j - 1) || Quiet(samples[..j], samples[j].at, cfg.Window())
    {
      PauseStep(samples, cfg, i, j + 1);
    }
  }

  // ---------------------------------------------------------------- when both observers report alike

  /** At sample `k` no more than 32 samples lie in the window. */
  predicate FewAt(samples: seq<Sample>, cfg: Config, k: nat)
    requires k < |samples|
  {
    CountIn(samples[..k + 1], samples[k].at, cfg.Window()) <= MAX_SAMPLES_PER_SOURCE
  }

  /** A pause before sample `i`, and never more than 32 samples in the window from there to sample `j`. */
  ghost predicate SparseBetween(samples: seq<Sample>, cfg: Config, i: nat, j: nat) {
    && i <= j < |samples| && Quiet(samples[..i], samples[i].at, cfg.Window())
    && forall k :: i <= k <= j ==> FewAt(samples, cfg, k)
  }

  lemma FewDecidesAlike(samples: seq<Sample>, cfg: Config, k: nat)
    requires cfg.Valid() && Ordered(samples) && k < |samples| && FewAt(samples, cfg, k)
    ensures samples[..k] + [samples[k]] == samples[..k + 1]
    ensures SameDecision(samples[..k + 1], samples[k].at, cfg)
  {
    PortsExactWhenFew(samples[..k + 1], samples[k].at, cfg.Window());
  }

  lemma AlikeAt(samples: seq<Sample>, cfg: Config, k: nat, o: Observer, w: Observer)
    requires cfg.Valid() && Ordered(samples) && k < |samples| && FewAt(samples, cfg, k)
    requires o.history == samples[..k] == w.history
    requires o.reported == w.reported || Quiet(samples[..k], samples[k].at, cfg.Window())
    ensures Reports(Recent, o, samples[k], cfg) <==> Reports(Whole, w, samples[k], cfg)
    ensures Observe(Recent, o, samples[k], cfg) == Observe(Whole, w, samples[k], cfg)
  {
    hide Burst;
    FewDecidesAlike(samples, cfg, k);
  }

  /**
   From a pause on, while at most 32 samples lie in the window, the newest 32 give the reports of
   the whole history.
   */
  lemma {:induction false} SparseAlike(samples: seq<Sample>, cfg: Config, i: nat, j: nat)
    requires cfg.Valid() && Ordered(samples) && SparseBetween(samples, cfg, i, j)
    ensures Reports(Recent, Observed(Recent, samples[..j], cfg), samples[j], cfg)
       <==> Reports(Whole, Observed(Whole, samples[..j], cfg), samples[j], cfg)
    ensures Observed(Recent, samples[..j + 1], cfg) == Observed(Whole, samples[..j + 1], cfg)
    decreases j
  {
    hide Observe;
    hide Reports;
    hide FewAt;
    hide Quiet;
    var before := samples[..j];
    if i < j {
      SparseAlike(samples, cfg, i, j - 1);
    }
    ObservedRemembers(Recent, before, cfg);
    ObservedRemembers(Whole, before, cfg);
    AlikeAt(samples, cfg, j, Observed(Recent, before, cfg), Observed(Whole, before, cfg));
    assert samples[..j + 1] == before + [samples[j]];
    ObservedSnoc(Recent, before, samples[j], cfg);
    ObservedSnoc(Whole, before, samples[j], cfg);
  }

  /** The last sample follows a pause with never more than 32 samples in the window since. */
  ghost predicate Sparse(samples: seq<Sample>, cfg: Config) {
    exists i: nat :: SparseSince(samples, cfg, i)
  }

  ghost predicate SparseSince(samples: seq<Sample>, cfg: Config, i: nat) {
    samples != [] && SparseBetween(samples, cfg, i, |samples| - 1)
  }

  /** What the decision of the newest 32 samples on `e` is worth. */
  ghost predicate Justified(history: seq<Sample>, e: Sample, cfg: Config, candidate: bool) {
    && (candidate ==> Burst(Whole, history + [e], e.at, cfg))
    && (Sparse(history + [e], cfg) ==> candidate == Reports(Whole, Observed(Whole, history, cfg), e, cfg))
  }

  lemma RecentIsJustified(history: seq<Sample>, e: Sample, cfg: Config)
    requires cfg.Valid() && Ordered(history + [e])
    ensures Justified(history, e, cfg, Reports(Recent, Observed(Recent, history, cfg), e, cfg))
  {
    hide SparseBetween;
    hide Observed;
    var samples := history + [e];
    assert samples[..|history|] == history && samples[|history|] == e;
    ObservedRemembers(Recent, history, cfg);
    if Reports(Recent, Observed(Recent, history, cfg), e, cfg) {
      hide Burst;
      BurstIsReal(samples, e.at, cfg);
    }
    hide Reports;
    if Sparse(samples, cfg) {
      var i: nat :| SparseSince(samples, cfg, i);
      SparseAlike(samples, cfg, i, |samples| - 1);
    }
  }
}
