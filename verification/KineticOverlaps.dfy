/**
 Concrete schedules of the sections of `KineticSections`: calls with nothing in between,
 which are the whole calls, and overlaps that part what whole calls keep together.
 */
module KineticOverlaps {
  import opened Wrappers
  import opened KineticConfig
  import opened KineticArming
  import opened KineticSections

  // ---------------------------------------------------------------- single sections

  lemma Step(s: State, e: Section, rest: seq<Section>)
    requires May(s, e)
    ensures Through(s, [e] + rest) == Through(Next(s, e), rest)
  {
    assert ([e] + rest)[1..] == rest;
  }

  lemma Stop(s: State)
    ensures Through(s, []) == Some(s)
  {
  }

  lemma Begins(s: State, id: nat, p: Purpose)
    requires id !in s.calls && MayBegin(s.k, p)
    ensures May(s, Begin(id, p)) && Next(s, Begin(id, p)) == State(s.k, s.calls[id := Call(p, AtStart, s.k)])
  {
    hide MayBegin;
  }

  lemma Reads(s: State, id: nat, c: Call)
    requires id in s.calls && s.calls[id] == c && s.k.config.Valid()
    requires c.stage == if c.purpose.ToConfigure? then InMemory else AtStart
    ensures May(s, ReadPolicy(id, s.k.config))
    ensures Next(s, ReadPolicy(id, s.k.config)) == State(s.k, s.calls[id := c.(stage := Carrying(s.k.config))])
  {
  }

  function Rewritten(k: Kinetic, wanted: bool, policy: Config): Kinetic {
    k.(disk := Stored(wanted, policy), disarmUnwritten := false)
  }

  /** A write that succeeds. */
  lemma WritesIt(s: State, id: nat, c: Call, policy: Config)
    requires id in s.calls && s.calls[id] == c && c.stage == Carrying(policy) && policy.Valid()
    ensures May(s, WriteFile(id, Wanted(c.purpose), policy, true))
    ensures Next(s, WriteFile(id, Wanted(c.purpose), policy, true)) ==
      State(Rewritten(s.k, Wanted(c.purpose), policy),
            if c.purpose.ToConfigure? then s.calls - {id} else s.calls[id := c.(stage := OnDisk(true))])
  {
  }

  /** A write that fails. */
  lemma FailsToWrite(s: State, id: nat, c: Call, policy: Config)
    requires id in s.calls && s.calls[id] == c && c.stage == Carrying(policy)
    ensures May(s, WriteFile(id, Wanted(c.purpose), policy, false))
    ensures Next(s, WriteFile(id, Wanted(c.purpose), policy, false)) ==
      State(s.k, if c.purpose.ToArm? || c.purpose.ToIntend? then s.calls - {id}
                 else s.calls[id := c.(stage := OnDisk(false))])
  {
  }

  lemma Commits(s: State, id: nat, c: Call)
    requires id in s.calls && s.calls[id] == c && c.stage.OnDisk? && !c.purpose.ToConfigure?
    ensures May(s, Commit(id, Wanted(c.purpose)))
    ensures Next(s, Commit(id, Wanted(c.purpose))) == State(CommitTo(s.k, c), s.calls - {id})
  {
    hide CommitTo;
  }

  lemma GoesToMonitor(s: State, id: nat, c: Call)
    requires id in s.calls && s.calls[id] == c && c.stage == AtStart && s.k.monitor.Some?
    requires c.purpose.ToConfigure? && c.purpose.next.Valid()
    ensures May(s, Configure(id, c.purpose.next))
    ensures Next(s, Configure(id, c.purpose.next)) ==
      State(s.k.(monitor := Some(c.purpose.next)), s.calls[id := c.(stage := InMonitor)])
  {
  }

  lemma GoesToMemory(s: State, id: nat, c: Call)
    requires id in s.calls && s.calls[id] == c && c.stage == InMonitor && c.purpose.ToConfigure?
    ensures May(s, SetPolicy(id, c.purpose.next))
    ensures Next(s, SetPolicy(id, c.purpose.next)) ==
      State(s.k.(config := c.purpose.next), s.calls[id := c.(stage := InMemory)])
  {
  }

  // ---------------------------------------------------------------- whole calls in sections

  /** An arming, intent or disarming call with nothing in between. */
  function InARow(id: nat, p: Purpose, policy: Config, ok: bool): seq<Section> {
    [Begin(id, p)] + ([ReadPolicy(id, policy)] + ([WriteFile(id, Wanted(p), policy, ok)] +
      (if ok || p.ToDisarm? then [Commit(id, Wanted(p))] + [] else [])))
  }

  /** What such a call makes of the engine. */
  function WholeCall(k: Kinetic, p: Purpose, ok: bool): Kinetic {
    match p
    case ToArm(clock, rearm) => Record(k, clock, ok, rearm)
    case ToIntend(now) => if ok then Written(k, true).(desired := true, rearm := Pending, nextAttempt := now) else k
    case ToDisarm => Disarm(k, ok)
    case ToConfigure(_, _, _) => k
  }

  lemma CommitMakesCall(k: Kinetic, p: Purpose, ok: bool, seen: Kinetic)
    requires k.config.Valid() && !p.ToConfigure? && (ok || p.ToDisarm?)
    ensures CommitTo(if ok then Rewritten(k, Wanted(p), k.config) else k, Call(p, OnDisk(ok), seen))
         == WholeCall(k, p, ok)
  {
  }

  lemma Dropped(calls: map<nat, Call>, id: nat, c: Call, d: Call, e: Call)
    requires id !in calls
    ensures calls[id := c][id := d][id := e] - {id} == calls && calls[id := c][id := d] - {id} == calls
  {
  }

  /** The sections of one call in a row are that call, whatever else is under way. */
  lemma SectionsMakeCalls(s: State, id: nat, p: Purpose, ok: bool)
    requires s.k.config.Valid() && id !in s.calls && !p.ToConfigure? && MayBegin(s.k, p)
    ensures Through(s, InARow(id, p, s.k.config, ok)) == Some(State(WholeCall(s.k, p, ok), s.calls))
  {
    var policy := s.k.config;
    var c0 := Call(p, AtStart, s.k);
    var c1, c2 := c0.(stage := Carrying(policy)), c0.(stage := OnDisk(ok));
    var read, write, commit := ReadPolicy(id, policy), WriteFile(id, Wanted(p), policy, ok), Commit(id, Wanted(p));
    var s1 := State(s.k, s.calls[id := c0]);
    var s2 := State(s.k, s.calls[id := c0][id := c1]);
    var s3 := State(if ok then Rewritten(s.k, Wanted(p), policy) else s.k, s.calls[id := c0][id := c1][id := c2]);
    Dropped(s.calls, id, c0, c1, c2);
    if ok || p.ToDisarm? {
      CommitMakesCall(s.k, p, ok, s.k);
    } else {
      FailedCall(s.k, p);
    }
    hide *;
    Begins(s, id, p);
    Reads(s1, id, c0);
    if ok {
      WritesIt(s2, id, c1, policy);
    } else {
      FailsToWrite(s2, id, c1, policy);
    }
    var end := State(WholeCall(s.k, p, ok), s.calls);
    Stop(end);
    var rest := if ok || p.ToDisarm? then [commit] + [] else [];
    if ok || p.ToDisarm? {
      Commits(s3, id, c2);
      Step(s3, commit, []);
    }
    Step(s2, write, rest);
    Step(s1, read, [write] + rest);
    Step(s, Begin(id, p), [read] + ([write] + rest));
    RowIs(id, p, policy, ok);
  }

  lemma FailedCall(k: Kinetic, p: Purpose)
    requires p.ToArm? || p.ToIntend?
    ensures WholeCall(k, p, false) == k
  {
  }

  lemma RowIs(id: nat, p: Purpose, policy: Config, ok: bool)
    ensures InARow(id, p, policy, ok) ==
      [Begin(id, p)] + ([ReadPolicy(id, policy)] + ([WriteFile(id, Wanted(p), policy, ok)] +
        (if ok || p.ToDisarm? then [Commit(id, Wanted(p))] + [] else [])))
  {
  }

  /** A policy change with nothing in between. */
  function ChangeInARow(id: nat, p: Purpose): seq<Section>
    requires p.ToConfigure?
  {
    [Begin(id, p)] + ([Configure(id, p.next)] + ([SetPolicy(id, p.next)] + ([ReadPolicy(id, p.next)] +
      ([WriteFile(id, p.wanted, p.next, true)] + []))))
  }

  function Changed(k: Kinetic, next: Config, wanted: bool): Kinetic {
    Rewritten(k.(monitor := Some(next), config := next), wanted, next)
  }

  lemma DroppedLater(calls: map<nat, Call>, id: nat, a: Call, b: Call, c: Call, d: Call)
    requires id !in calls
    ensures calls[id := a][id := b][id := c][id := d] - {id} == calls
  {
  }

  /** As for the other calls: a successful policy change in a row is the whole one, whatever else is under way. */
  lemma SectionsMakeChange(s: State, id: nat, p: Purpose)
    requires id !in s.calls && p.ToConfigure? && MayBegin(s.k, p) && p.next.Valid() && s.k.monitor.Some?
    ensures Through(s, ChangeInARow(id, p)) == Some(State(Changed(s.k, p.next, p.wanted), s.calls))
  {
    hide MayBegin;
    hide Through;
    var next := p.next;
    var c0 := Call(p, AtStart, s.k);
    var c1, c2, c3 := c0.(stage := InMonitor), c0.(stage := InMemory), c0.(stage := Carrying(next));
    var k1 := s.k.(monitor := Some(next));
    var k2 := k1.(config := next);
    var s1 := State(s.k, s.calls[id := c0]);
    var s2 := State(k1, s.calls[id := c0][id := c1]);
    var s3 := State(k2, s.calls[id := c0][id := c1][id := c2]);
    var s4 := State(k2, s.calls[id := c0][id := c1][id := c2][id := c3]);
    DroppedLater(s.calls, id, c0, c1, c2, c3);
    hide *;
    Begins(s, id, p);
    GoesToMonitor(s1, id, c0);
    GoesToMemory(s2, id, c1);
    Reads(s3, id, c2);
    WritesIt(s4, id, c3, next);
    WantedChange(p);
    var end := State(Rewritten(k2, p.wanted, next), s.calls);
    Stop(end);
    var write, read := WriteFile(id, p.wanted, next, true), ReadPolicy(id, next);
    Step(s4, write, []);
    Step(s3, read, [write] + []);
    Step(s2, SetPolicy(id, next), [read] + ([write] + []));
    Step(s1, Configure(id, next), [SetPolicy(id, next)] + ([read] + ([write] + [])));
    Step(s, Begin(id, p), [Configure(id, next)] + ([SetPolicy(id, next)] + ([read] + ([write] + []))));
    ChangeIs(s.k, id, p);
  }

  lemma WantedChange(p: Purpose)
    requires p.ToConfigure?
    ensures Wanted(p) == p.wanted
  {
  }

  lemma ChangeIs(k: Kinetic, id: nat, p: Purpose)
    requires p.ToConfigure?
    ensures ChangeInARow(id, p) ==
      [Begin(id, p)] + ([Configure(id, p.next)] + ([SetPolicy(id, p.next)] + ([ReadPolicy(id, p.next)] +
        ([WriteFile(id, p.wanted, p.next, true)] + []))))
    ensures Changed(k, p.next, p.wanted) == Rewritten(k.(monitor := Some(p.next)).(config := p.next), p.wanted, p.next)
  {
  }

  lemma {:induction false} ThroughTwo(s: State, a: seq<Section>, b: seq<Section>)
    requires Through(s, a).Some?
    ensures Through(s, a + b) == Through(Through(s, a).value, b)
    decreases |a|
  {
    hide May;
    hide Next;
    if a == [] {
      assert a + b == b;
    } else {
      assert (a + b)[0] == a[0] && (a + b)[1..] == a[1..] + b;
      ThroughTwo(Next(s, a[0]), a[1..], b);
    }
  }

  // ---------------------------------------------------------------- a policy change that cannot be written

  /** The sections of a policy change up to its write. */
  function CarryInARow(id: nat, p: Purpose): seq<Section>
    requires p.ToConfigure?
  {
    [Begin(id, p)] + ([Configure(id, p.next)] + ([SetPolicy(id, p.next)] + ([ReadPolicy(id, p.next)] + [])))
  }

  /** A failed write and the two sections that put the previous policy back. */
  function UndoInARow(id: nat, p: Purpose): seq<Section>
    requires p.ToConfigure?
  {
    [WriteFile(id, p.wanted, p.next, false)] + ([Configure(id, p.previous)] + ([SetPolicy(id, p.previous)] + []))
  }

  lemma Overwritten(calls: map<nat, Call>, id: nat, a: Call, b: Call)
    ensures calls[id := a][id := b] == calls[id := b] && (id !in calls ==> calls[id := a] - {id} == calls)
  {
  }

  lemma CarryRuns(s: State, id: nat, p: Purpose)
    requires id !in s.calls && p.ToConfigure? && MayBegin(s.k, p) && p.next.Valid() && s.k.monitor.Some?
    ensures Through(s, CarryInARow(id, p)) ==
      Some(State(s.k.(monitor := Some(p.next)).(config := p.next), s.calls[id := Call(p, Carrying(p.next), s.k)]))
  {
    var next := p.next;
    var c0 := Call(p, AtStart, s.k);
    var c1, c2, c3 := c0.(stage := InMonitor), c0.(stage := InMemory), c0.(stage := Carrying(next));
    var k1 := s.k.(monitor := Some(next));
    var s1, s2 := State(s.k, s.calls[id := c0]), State(k1, s.calls[id := c1]);
    var s3, s4 := State(k1.(config := next), s.calls[id := c2]), State(k1.(config := next), s.calls[id := c3]);
    Overwritten(s.calls, id, c0, c1);
    Overwritten(s.calls, id, c1, c2);
    Overwritten(s.calls, id, c2, c3);
    hide *;
    Begins(s, id, p);
    GoesToMonitor(s1, id, c0);
    GoesToMemory(s2, id, c1);
    Reads(s3, id, c2);
    Stop(s4);
    var read := ReadPolicy(id, next);
    Step(s3, read, []);
    Step(s2, SetPolicy(id, next), [read] + []);
    Step(s1, Configure(id, next), [SetPolicy(id, next)] + ([read] + []));
    Step(s, Begin(id, p), [Configure(id, next)] + ([SetPolicy(id, next)] + ([read] + [])));
    CarryIs(id, p);
  }

  lemma CarryIs(id: nat, p: Purpose)
    requires p.ToConfigure?
    ensures CarryInARow(id, p) ==
      [Begin(id, p)] + ([Configure(id, p.next)] + ([SetPolicy(id, p.next)] + ([ReadPolicy(id, p.next)] + [])))
    ensures UndoInARow(id, p) ==
      [WriteFile(id, p.wanted, p.next, false)] + ([Configure(id, p.previous)] + ([SetPolicy(id, p.previous)] + []))
  {
  }

  lemma GoesBack(s: State, id: nat, c: Call)
    requires id in s.calls && s.calls[id] == c && c.purpose.ToConfigure? && c.purpose.previous.Valid()
    ensures c.stage == OnDisk(false) && s.k.monitor.Some? ==>
      && May(s, Configure(id, c.purpose.previous))
      && Next(s, Configure(id, c.purpose.previous)) ==
           State(s.k.(monitor := Some(c.purpose.previous)), s.calls[id := c.(stage := Undone)])
    ensures c.stage == Undone ==>
      && May(s, SetPolicy(id, c.purpose.previous))
      && Next(s, SetPolicy(id, c.purpose.previous)) ==
           State(s.k.(config := c.purpose.previous), s.calls - {id})
  {
  }

  lemma UndoRuns(k: Kinetic, calls: map<nat, Call>, id: nat, p: Purpose, seen: Kinetic)
    requires id !in calls && p.ToConfigure? && p.previous.Valid() && k.monitor.Some?
    ensures Through(State(k, calls[id := Call(p, Carrying(p.next), seen)]), UndoInARow(id, p)) ==
      Some(State(k.(monitor := Some(p.previous)).(config := p.previous), calls))
  {
    var before, failed := Call(p, Carrying(p.next), seen), Call(p, OnDisk(false), seen);
    var undone := Call(p, Undone, seen);
    var k1 := k.(monitor := Some(p.previous));
    var s0, s1 := State(k, calls[id := before]), State(k, calls[id := failed]);
    var s2, end := State(k1, calls[id := undone]), State(k1.(config := p.previous), calls);
    Overwritten(calls, id, before, failed);
    Overwritten(calls, id, failed, undone);
    Overwritten(calls, id, undone, undone);
    hide *;
    WantedChange(p);
    FailsToWrite(s0, id, before, p.next);
    GoesBack(s1, id, failed);
    GoesBack(s2, id, undone);
    Stop(end);
    var monitor, memory := Configure(id, p.previous), SetPolicy(id, p.previous);
    Step(s2, memory, []);
    Step(s1, monitor, [memory] + []);
    Step(s0, WriteFile(id, p.wanted, p.next, false), [monitor] + ([memory] + []));
    CarryIs(id, p);
  }

  /**
   A policy change that cannot be written, in a row with the sections that undo it, leaves the
   engine with the policy it had, in memory and in the monitor, and nothing else changed.
   */
  lemma SectionsUndoChange(s: State, id: nat, p: Purpose)
    requires id !in s.calls && p.ToConfigure? && MayBegin(s.k, p) && s.k.config.Valid()
    ensures Through(s, CarryInARow(id, p) + UndoInARow(id, p)) ==
      Some(State(s.k.(monitor := Some(s.k.config)), s.calls))
    ensures s.k.monitor == Some(s.k.config) ==> Through(s, CarryInARow(id, p) + UndoInARow(id, p)) == Some(s)
  {
    assert p.previous == s.k.config && p.next.Valid() && s.k.monitor.Some?;
    var k1 := s.k.(monitor := Some(p.next)).(config := p.next);
    assert k1.(monitor := Some(p.previous)).(config := p.previous) == s.k.(monitor := Some(s.k.config));
    hide *;
    CarryRuns(s, id, p);
    UndoRuns(k1, s.calls, id, p, s.k);
    ThroughTwo(s, CarryInARow(id, p), UndoInARow(id, p));
  }

  // ---------------------------------------------------------------- overlaps that part what belongs together

  /** An arming call that has read the policy it will write. */
  function ReadToArm(clock: int, rearm: Rearm, policy: Config): seq<Section> {
    [Begin(1, ToArm(clock, rearm))] + ([ReadPolicy(1, policy)] + [])
  }

  lemma ReadToArmRuns(k: Kinetic, clock: int, rearm: Rearm)
    requires k.config.Valid() && MayBegin(k, ToArm(clock, rearm))
    ensures Through(State(k, map[]), ReadToArm(clock, rearm, k.config)) ==
      Some(State(k, map[1 := Call(ToArm(clock, rearm), Carrying(k.config), k)]))
  {
    hide MayBegin;
    hide Through;
    var s, p := State(k, map[]), ToArm(clock, rearm);
    var c0 := Call(p, AtStart, k);
    var s1 := State(k, map[1 := c0]);
    var s2 := State(k, map[1 := c0.(stage := Carrying(k.config))]);
    assert s.calls[1 := c0] == s1.calls && s1.calls[1 := c0.(stage := Carrying(k.config))] == s2.calls;
    hide Next;
    hide May;
    Begins(s, 1, p);
    Reads(s1, 1, c0);
    Stop(s2);
    Step(s1, ReadPolicy(1, k.config), []);
    Step(s, Begin(1, p), [ReadPolicy(1, k.config)] + []);
  }

  /** The rest of that call. */
  lemma WriteAndCommitRuns(k: Kinetic, seen: Kinetic, clock: int, rearm: Rearm, policy: Config)
    requires policy.Valid()
    ensures Through(
      State(k, map[1 := Call(ToArm(clock, rearm), Carrying(policy), seen)]),
      [WriteFile(1, true, policy, true)] + ([Commit(1, true)] + [])) ==
      Some(State(CommitTo(Rewritten(k, true, policy), Call(ToArm(clock, rearm), OnDisk(true), seen)), map[]))
  {
    hide Through;
    var c := Call(ToArm(clock, rearm), Carrying(policy), seen);
    var c' := c.(stage := OnDisk(true));
    var s1, s2 := State(k, map[1 := c]), State(Rewritten(k, true, policy), map[1 := c']);
    var end := State(CommitTo(Rewritten(k, true, policy), c'), map[]);
    assert s1.calls[1 := c'] == s2.calls && s2.calls - {1} == map[];
    hide Next;
    hide May;
    hide CommitTo;
    WritesIt(s1, 1, c, policy);
    Commits(s2, 1, c');
    Stop(end);
    Step(s2, Commit(1, true), []);
    Step(s1, WriteFile(1, true, policy, true), [Commit(1, true)] + []);
  }

  /** Between the read and the write of an arming call, a whole policy change. */
  function OvertakenRead(k: Kinetic, clock: int, rearm: Rearm, next: Config): seq<Section> {
    ReadToArm(clock, rearm, k.config) + (ChangeInARow(2, ToConfigure(next, k.config, k.desired)) +
      ([WriteFile(1, true, k.config, true)] + ([Commit(1, true)] + [])))
  }

  /**
   From every consistent, disarmed and ready engine with a monitor, this overlap ends with no call
   under way, the new policy in memory and monitor, and the old one in the file.
   */
  lemma PolicyIsParted(k: Kinetic, clock: int, rearm: Rearm, next: Config)
    requires Consistent(k) && !k.armed && Ready(k.live) && 0 < clock
    requires k.monitor.Some? && next.Valid() && next != k.config
    ensures var s := Through(State(k, map[]), OvertakenRead(k, clock, rearm, next));
      && s.Some? && s.value.calls == map[] && s.value.k.armed
      && s.value.k.config == next && s.value.k.monitor == Some(next) && LoadedConfig(s.value.k.disk) == k.config
  {
    hide Through;
    hide Next;
    hide May;
    hide FirewallTrue;
    hide Ready;
    var s0 := State(k, map[]);
    var s1 := State(k, map[1 := Call(ToArm(clock, rearm), Carrying(k.config), k)]);
    var p := ToConfigure(next, k.config, k.desired);
    var changed := Changed(k, next, k.desired);
    ReadToArmRuns(k, clock, rearm);
    SectionsMakeChange(s1, 2, p);
    WriteAndCommitRuns(changed, k, clock, rearm, k.config);
    var rest := [WriteFile(1, true, k.config, true)] + ([Commit(1, true)] + []);
    ThroughTwo(s1, ChangeInARow(2, p), rest);
    ThroughTwo(s0, ReadToArm(clock, rearm, k.config), ChangeInARow(2, p) + rest);
  }

  /** After the write of an arming call, a whole disarm. */
  function OvertakenWrite(k: Kinetic, clock: int, rearm: Rearm): seq<Section> {
    ReadToArm(clock, rearm, k.config) + (([WriteFile(1, true, k.config, true)] + []) +
      (InARow(2, ToDisarm, k.config, true) + ([Commit(1, true)] + [])))
  }

  lemma JustWrites(k: Kinetic, clock: int, rearm: Rearm)
    requires k.config.Valid()
    ensures Through(
      State(k, map[1 := Call(ToArm(clock, rearm), Carrying(k.config), k)]),
      [WriteFile(1, true, k.config, true)] + []) ==
      Some(State(Rewritten(k, true, k.config), map[1 := Call(ToArm(clock, rearm), OnDisk(true), k)]))
  {
    hide Through;
    var c := Call(ToArm(clock, rearm), Carrying(k.config), k);
    var s, s' := State(k, map[1 := c]), State(Rewritten(k, true, k.config), map[1 := c.(stage := OnDisk(true))]);
    assert s.calls[1 := c.(stage := OnDisk(true))] == s'.calls;
    hide Next;
    hide May;
    WritesIt(s, 1, c, k.config);
    Stop(s');
    Step(s, WriteFile(1, true, k.config, true), []);
  }

  lemma JustCommits(k: Kinetic, seen: Kinetic, clock: int, rearm: Rearm)
    ensures Through(State(k, map[1 := Call(ToArm(clock, rearm), OnDisk(true), seen)]), [Commit(1, true)] + []) ==
      Some(State(CommitTo(k, Call(ToArm(clock, rearm), OnDisk(true), seen)), map[]))
  {
    hide Through;
    var c := Call(ToArm(clock, rearm), OnDisk(true), seen);
    var s := State(k, map[1 := c]);
    assert s.calls - {1} == map[];
    hide Next;
    hide May;
    hide CommitTo;
    Commits(s, 1, c);
    Stop(State(CommitTo(k, c), map[]));
    Step(s, Commit(1, true), []);
  }

  /** From the same engines, this overlap ends armed in memory and disarmed in the file: a restart would not re-arm. */
  lemma IntentIsParted(k: Kinetic, clock: int, rearm: Rearm, again: bool)
    requires Consistent(k) && !k.armed && Ready(k.live) && 0 < clock
    ensures var s := Through(State(k, map[]), OvertakenWrite(k, clock, rearm));
      && s.Some? && s.value.calls == map[] && s.value.k.armed && s.value.k.desired
      && !LoadedIntent(s.value.k.disk) && !Restart(s.value.k, again).desired
  {
    hide Through;
    hide Next;
    hide May;
    hide FirewallTrue;
    hide Ready;
    hide InARow;
    var s0 := State(k, map[]);
    var c := Call(ToArm(clock, rearm), Carrying(k.config), k);
    var calls := map[1 := c.(stage := OnDisk(true))];
    var s1, s2 := State(k, map[1 := c]), State(Rewritten(k, true, k.config), calls);
    var s3 := State(Disarm(s2.k, true), calls);
    ReadToArmRuns(k, clock, rearm);
    JustWrites(k, clock, rearm);
    SectionsMakeCalls(s2, 2, ToDisarm, true);
    JustCommits(s3.k, k, clock, rearm);
    var write, disarm, commit :=
      [WriteFile(1, true, k.config, true)] + [], InARow(2, ToDisarm, k.config, true), [Commit(1, true)] + [];
    ThroughTwo(s2, disarm, commit);
    ThroughTwo(s1, write, disarm + commit);
    ThroughTwo(s0, ReadToArm(clock, rearm, k.config), write + (disarm + commit));
  }

  /** After the write of an arming call, the announcement of a firewall application. */
  function OvertakenDecision(k: Kinetic, clock: int, rearm: Rearm, f: Feed): seq<Section> {
    ReadToArm(clock, rearm, k.config) + (([WriteFile(1, true, k.config, true)] + []) +
      (([Environment(DoBeginApply(f))] + []) + ([Commit(1, true)] + [])))
  }

  lemma JustAnnounces(s: State, f: Feed)
    ensures Through(s, [Environment(DoBeginApply(f))] + []) == Some(State(BeginApply(s.k, f), s.calls))
  {
    hide Through;
    var e := Environment(DoBeginApply(f));
    Step(s, e, []);
    Stop(Next(s, e));
  }

  /** From the same engines, this overlap arms an engine that is not confirmed. */
  lemma ArmsUnconfirmed(k: Kinetic, clock: int, rearm: Rearm, f: Feed)
    requires Consistent(k) && !k.armed && Ready(k.live) && 0 < clock
    ensures var s := Through(State(k, map[]), OvertakenDecision(k, clock, rearm, f));
      s.Some? && s.value.calls == map[] && s.value.k.armed && !Confirmed(s.value.k)
  {
    hide Through;
    hide Next;
    hide May;
    hide FirewallTrue;
    hide Ready;
    var s0 := State(k, map[]);
    var c := Call(ToArm(clock, rearm), Carrying(k.config), k);
    var calls := map[1 := c.(stage := OnDisk(true))];
    var s1, s2 := State(k, map[1 := c]), State(Rewritten(k, true, k.config), calls);
    var s3 := State(BeginApply(s2.k, f), calls);
    ReadToArmRuns(k, clock, rearm);
    JustWrites(k, clock, rearm);
    JustAnnounces(s2, f);
    JustCommits(s3.k, k, clock, rearm);
    var write, announce, commit :=
      [WriteFile(1, true, k.config, true)] + [], [Environment(DoBeginApply(f))] + [], [Commit(1, true)] + [];
    ThroughTwo(s2, announce, commit);
    ThroughTwo(s1, write, announce + commit);
    ThroughTwo(s0, ReadToArm(clock, rearm, k.config), write + (announce + commit));
  }

  /** A policy change up to its write. */
  function ReadToChange(p: Purpose): seq<Section>
    requires p.ToConfigure?
  {
    [Begin(1, p)] + ([Configure(1, p.next)] + ([SetPolicy(1, p.next)] + ([ReadPolicy(1, p.next)] + [])))
  }

  lemma ReadToChangeRuns(k: Kinetic, p: Purpose)
    requires p.ToConfigure? && MayBegin(k, p) && p.next.Valid() && k.monitor.Some?
    ensures Through(State(k, map[]), ReadToChange(p)) ==
      Some(State(k.(monitor := Some(p.next), config := p.next), map[1 := Call(p, Carrying(p.next), k)]))
  {
    hide MayBegin;
    hide Through;
    var next := p.next;
    var c0 := Call(p, AtStart, k);
    var c1, c2, c3 := c0.(stage := InMonitor), c0.(stage := InMemory), c0.(stage := Carrying(next));
    var k1 := k.(monitor := Some(next));
    var k2 := k1.(config := next);
    var s0, s1, s2 := State(k, map[]), State(k, map[1 := c0]), State(k1, map[1 := c1]);
    var s3, s4 := State(k2, map[1 := c2]), State(k2, map[1 := c3]);
    assert s0.calls[1 := c0] == s1.calls && s1.calls[1 := c1] == s2.calls;
    assert s2.calls[1 := c2] == s3.calls && s3.calls[1 := c3] == s4.calls;
    hide Next;
    hide May;
    Begins(s0, 1, p);
    GoesToMonitor(s1, 1, c0);
    GoesToMemory(s2, 1, c1);
    Reads(s3, 1, c2);
    Stop(s4);
    var read := ReadPolicy(1, next);
    Step(s3, read, []);
    Step(s2, SetPolicy(1, next), [read] + []);
    Step(s1, Configure(1, next), [SetPolicy(1, next)] + ([read] + []));
    Step(s0, Begin(1, p), [Configure(1, next)] + ([SetPolicy(1, next)] + ([read] + [])));
  }

  /** Before the write of a policy change, a whole disarm. */
  function OvertakenChange(p: Purpose): seq<Section>
    requires p.ToConfigure?
  {
    ReadToChange(p) + (InARow(2, ToDisarm, p.next, true) + ([WriteFile(1, p.wanted, p.next, true)] + []))
  }

  lemma ChangeWrites(k: Kinetic, p: Purpose, seen: Kinetic)
    requires p.ToConfigure? && p.next.Valid()
    ensures Through(State(k, map[1 := Call(p, Carrying(p.next), seen)]), [WriteFile(1, p.wanted, p.next, true)] + []) ==
      Some(State(Rewritten(k, p.wanted, p.next), map[]))
  {
    hide Through;
    var c := Call(p, Carrying(p.next), seen);
    var s := State(k, map[1 := c]);
    assert s.calls - {1} == map[];
    hide Next;
    hide May;
    WritesIt(s, 1, c, p.next);
    Stop(State(Rewritten(k, p.wanted, p.next), map[]));
    Step(s, WriteFile(1, p.wanted, p.next, true), []);
  }

  /**
   From every consistent engine with an intent and a monitor, this overlap ends disarmed in memory
   and armed in the file: the policy change writes back the intent it started from, and a restart
   brings it back although every write succeeded.
   */
  lemma DisarmIsRevived(k: Kinetic, next: Config, again: bool)
    requires Consistent(k) && k.desired && k.monitor.Some? && next.Valid() && next != k.config
    ensures var s := Through(State(k, map[]), OvertakenChange(ToConfigure(next, k.config, true)));
      && s.Some? && s.value.calls == map[] && !s.value.k.armed && !s.value.k.desired
      && LoadedIntent(s.value.k.disk) && Restart(s.value.k, again).desired
  {
    hide Through;
    hide Next;
    hide May;
    hide FirewallTrue;
    hide InARow;
    var p := ToConfigure(next, k.config, true);
    var calls := map[1 := Call(p, Carrying(next), k)];
    var s0, s1 := State(k, map[]), State(k.(monitor := Some(next), config := next), calls);
    var s2 := State(Disarm(s1.k, true), calls);
    ReadToChangeRuns(k, p);
    SectionsMakeCalls(s1, 2, ToDisarm, true);
    ChangeWrites(s2.k, p, k);
    var disarm, write := InARow(2, ToDisarm, next, true), [WriteFile(1, true, next, true)] + [];
    ThroughTwo(s1, disarm, write);
    ThroughTwo(s0, ReadToChange(p), disarm + write);
  }

  /** Two policy changes that reach monitor and memory in opposite order. */
  function Crossed(a: Purpose, b: Purpose): seq<Section>
    requires a.ToConfigure? && b.ToConfigure?
  {
    [Begin(1, a)] + ([Begin(2, b)] + ([Configure(1, a.next)] + ([Configure(2, b.next)] +
      ([SetPolicy(2, b.next)] + ([SetPolicy(1, a.next)] + [])))))
  }

  /** From every consistent engine with a monitor, this overlap leaves monitor and memory with different policies. */
  lemma MonitorIsParted(k: Kinetic, next: Config, other: Config)
    requires Consistent(k) && k.monitor.Some? && next.Valid() && other.Valid()
    requires next != k.config && other != k.config && next != other
    ensures var s := Through(
        State(k, map[]), Crossed(ToConfigure(next, k.config, k.desired), ToConfigure(other, k.config, k.desired)));
      s.Some? && s.value.k.config == next && s.value.k.monitor == Some(other)
  {
    hide Through;
    hide FirewallTrue;
    var a, b := ToConfigure(next, k.config, k.desired), ToConfigure(other, k.config, k.desired);
    var a0, b0 := Call(a, AtStart, k), Call(b, AtStart, k);
    var a1, b1 := a0.(stage := InMonitor), b0.(stage := InMonitor);
    var a2, b2 := a0.(stage := InMemory), b0.(stage := InMemory);
    var k1, k2 := k.(monitor := Some(next)), k.(monitor := Some(other));
    var k3, k4 := k2.(config := other), k2.(config := next);
    var s0, s1, s2 := State(k, map[]), State(k, map[1 := a0]), State(k, map[1 := a0, 2 := b0]);
    var s3, s4 := State(k1, map[1 := a1, 2 := b0]), State(k2, map[1 := a1, 2 := b1]);
    var s5, s6 := State(k3, map[1 := a1, 2 := b2]), State(k4, map[1 := a2, 2 := b2]);
    assert s0.calls[1 := a0] == s1.calls && s1.calls[2 := b0] == s2.calls && s2.calls[1 := a1] == s3.calls;
    assert s3.calls[2 := b1] == s4.calls && s4.calls[2 := b2] == s5.calls && s5.calls[1 := a2] == s6.calls;
    assert MayBegin(k, a) && MayBegin(k, b);
    hide MayBegin;
    hide Next;
    hide May;
    hide Consistent;
    Begins(s0, 1, a);
    Begins(s1, 2, b);
    GoesToMonitor(s2, 1, a0);
    GoesToMonitor(s3, 2, b0);
    GoesToMemory(s4, 2, b1);
    GoesToMemory(s5, 1, a1);
    Stop(s6);
    var e5, e4, e3, e2 := SetPolicy(1, next), SetPolicy(2, other), Configure(2, other), Configure(1, next);
    Step(s5, e5, []);
    Step(s4, e4, [e5] + []);
    Step(s3, e3, [e4] + ([e5] + []));
    Step(s2, e2, [e3] + ([e4] + ([e5] + [])));
    Step(s1, Begin(2, b), [e2] + ([e3] + ([e4] + ([e5] + []))));
    Step(s0, Begin(1, a), [Begin(2, b)] + ([e2] + ([e3] + ([e4] + ([e5] + [])))));
  }
}
