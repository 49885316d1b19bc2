/**
 The calls that change policy, intent and arming, in the sections the code runs them
 in: what a call decides from, each locked update, the read of the policy it will
 write, and the write itself, with no lock held across them. The health loop,
 operator requests and firewall applications interleave these sections in any way.
 */
module KineticSections {
  import opened Wrappers
  import opened KineticConfig
  import opened KineticArming

  // ---------------------------------------------------------------- calls and their sections

  /** What a call is for; a policy change remembers the policy and the intent it started from. */
  datatype Purpose =
    | ToArm(clock: int, rearm: Rearm)
    | ToIntend(now: int)
    | ToDisarm
    | ToConfigure(next: Config, previous: Config, wanted: bool)

  /** How far a call has come. */
  datatype Stage = AtStart | InMonitor | InMemory | Carrying(policy: Config) | OnDisk(ok: bool) | Undone

  /** A call under way; `seen` is the engine it decided from. */
  datatype Call = Call(purpose: Purpose, stage: Stage, seen: Kinetic)

  datatype State = State(k: Kinetic, calls: map<nat, Call>)

  datatype Section =
    | Begin(id: nat, purpose: Purpose)
    | Configure(id: nat, policy: Config)
    | SetPolicy(id: nat, policy: Config)
    | ReadPolicy(id: nat, policy: Config)
    | WriteFile(id: nat, wanted: bool, policy: Config, ok: bool)
    | Commit(id: nat, wanted: bool)
    | Bookkeep(drop: bool, lostSince: int, rearm: Rearm, nextAttempt: int)
    | Environment(action: Action)
    | Restarted(hasMonitor: bool)

  /** The intent a call writes to the file. */
  function Wanted(p: Purpose): bool {
    match p
    case ToArm(_, _) => true
    case ToIntend(_) => true
    case ToDisarm => false
    case ToConfigure(_, _, wanted) => wanted
  }

  /** Telemetry, feeds and firewall applications write neither intent nor policy. */
  predicate IsEnvironment(a: Action) {
    a.DoTelemetry? || a.DoFeed? || a.DoBeginApply? || a.DoEndApply?
  }

  predicate MayBegin(k: Kinetic, p: Purpose) {
    match p
    case ToArm(clock, _) => !k.armed && Ready(k.live) && 0 < clock
    case ToIntend(_) => !k.armed && !Ready(k.live) && k.monitor.Some?
    case ToDisarm => true
    case ToConfigure(next, previous, wanted) =>
      k.monitor.Some? && next.Valid() && previous == Effective(k.config) && next != previous && wanted == k.desired
  }

  predicate MayContinue(k: Kinetic, c: Call, e: Section) {
    match e
    case Configure(_, policy) =>
      && c.purpose.ToConfigure? && k.monitor.Some? && policy.Valid()
      && ((c.stage == AtStart && policy == c.purpose.next)
          || (c.stage == OnDisk(false) && policy == c.purpose.previous))
    case SetPolicy(_, policy) =>
      && c.purpose.ToConfigure?
      && ((c.stage == InMonitor && policy == c.purpose.next) || (c.stage == Undone && policy == c.purpose.previous))
    case ReadPolicy(_, policy) =>
      c.stage == (if c.purpose.ToConfigure? then InMemory else AtStart) && policy == Effective(k.config)
    case WriteFile(_, wanted, policy, _) => c.stage == Carrying(policy) && wanted == Wanted(c.purpose)
    case Commit(_, wanted) => c.stage.OnDisk? && !c.purpose.ToConfigure? && wanted == Wanted(c.purpose)
    case _ => false
  }

  /** When a section may run. */
  predicate May(s: State, e: Section) {
    match e
    case Begin(id, p) => id !in s.calls && MayBegin(s.k, p)
    case Bookkeep(_, _, _, _) => true
    case Environment(a) => IsEnvironment(a)
    case Restarted(_) => true
    case _ => e.id in s.calls && MayContinue(s.k, s.calls[e.id], e)
  }

  /** The write of a section succeeds. */
  predicate Succeeds(e: Section) {
    e.WriteFile? && e.ok && e.policy.Valid()
  }

  function CommitTo(k: Kinetic, c: Call): Kinetic {
    match c.purpose
    case ToArm(clock, rearm) =>
      k.(armed := true, desired := true, armedAt := clock, lostSince := 0, nextAttempt := 0, rearm := rearm)
    case ToIntend(now) => k.(desired := true, rearm := Pending, nextAttempt := now)
    case ToDisarm =>
      k.(armed := false, desired := false, armedAt := 0, lostSince := 0, rearm := Idle, nextAttempt := 0,
         disarmUnwritten := if c.stage == OnDisk(true) then k.disarmUnwritten else LoadedIntent(k.disk))
    case ToConfigure(_, _, _) => k
  }

  /** The engine after a section. */
  function Engine(s: State, e: Section): Kinetic
    requires May(s, e)
  {
    match e
    case Begin(_, _) => s.k
    case Configure(_, policy) => s.k.(monitor := Some(policy))
    case SetPolicy(_, policy) => s.k.(config := policy)
    case ReadPolicy(_, _) => s.k
    case WriteFile(_, wanted, policy, _) =>
      if Succeeds(e) then s.k.(disk := Stored(wanted, policy), disarmUnwritten := false) else s.k
    case Commit(id, _) => CommitTo(s.k, s.calls[id])
    case Bookkeep(drop, lostSince, rearm, nextAttempt) =>
      s.k.(armed := s.k.armed && !drop, lostSince := lostSince, rearm := rearm, nextAttempt := nextAttempt)
    case Environment(a) => Act(s.k, a)
    case Restarted(hasMonitor) => Restart(s.k, hasMonitor)
  }

  /** The stage a call reaches by its section; none if it ends there. */
  function Advanced(c: Call, e: Section): Option<Stage> {
    match e
    case Configure(_, _) => Some(if c.stage == AtStart then InMonitor else Undone)
    case SetPolicy(_, _) => if c.stage == InMonitor then Some(InMemory) else None
    case ReadPolicy(_, policy) => Some(Carrying(policy))
    case WriteFile(_, _, _, _) =>
      if Succeeds(e) then (if c.purpose.ToConfigure? then None else Some(OnDisk(true)))
      else if c.purpose.ToDisarm? || c.purpose.ToConfigure? then Some(OnDisk(false))
      else None
    case _ => None
  }

  function Calls(s: State, e: Section): map<nat, Call>
    requires May(s, e)
  {
    match e
    case Begin(id, p) => s.calls[id := Call(p, AtStart, s.k)]
    case Bookkeep(_, _, _, _) => s.calls
    case Environment(_) => s.calls
    case Restarted(_) => map[]
    case _ =>
      match Advanced(s.calls[e.id], e)
      case None => s.calls - {e.id}
      case Some(stage) => s.calls[e.id := s.calls[e.id].(stage := stage)]
  }

  function Next(s: State, e: Section): State
    requires May(s, e)
  {
    State(Engine(s, e), Calls(s, e))
  }

  /** The state after a schedule of sections, if each may run in its turn. */
  function Through(s: State, sections: seq<Section>): Option<State>
    decreases |sections|
  {
    if sections == [] then Some(s)
    else if May(s, sections[0]) then Through(Next(s, sections[0]), sections[1..])
    else None
  }

  function Started(d: Disk, hasMonitor: bool): State {
    State(RunFrom(d, hasMonitor, []), map[])
  }

  // ---------------------------------------------------------------- what every schedule keeps

  predicate Coherent(k: Kinetic) {
    && (k.armed ==> k.desired && k.armedAt > 0)
    && k.config.Valid() && (k.monitor.Some? ==> k.monitor.value.Valid())
    && FirewallTrue(k.live.enforcement, k.firewall)
  }

  /** A call carries valid policies, and one that arms decided to in a confirmed, disarmed engine. */
  ghost predicate Sensible(c: Call) {
    && (c.purpose.ToArm? ==> 0 < c.purpose.clock && !c.seen.armed && Confirmed(c.seen))
    && (c.purpose.ToConfigure? ==> c.purpose.next.Valid() && c.purpose.previous.Valid())
  }

  ghost predicate AllCoherent(s: State) {
    Coherent(s.k) && forall id :: id in s.calls ==> Sensible(s.calls[id])
  }

  /** The environment changes nothing but the live facts, and keeps them true of the firewall. */
  lemma EnvironmentFrame(k: Kinetic, a: Action)
    requires IsEnvironment(a) && FirewallTrue(k.live.enforcement, k.firewall)
    ensures var k' := Act(k, a);
      k' == k.(live := k'.live, firewall := k'.firewall) && FirewallTrue(k'.live.enforcement, k'.firewall)
  {
  }

  lemma RestartIsConsistent(k: Kinetic, hasMonitor: bool)
    ensures Consistent(Restart(k, hasMonitor)) && Coherent(Restart(k, hasMonitor))
  {
  }

  lemma EngineStaysCoherent(s: State, e: Section)
    requires AllCoherent(s) && May(s, e)
    ensures Coherent(Engine(s, e))
  {
    hide FirewallTrue;
    hide Ready;
    hide Confirmed;
    if e.Environment? {
      EnvironmentFrame(s.k, e.action);
    } else if e.Restarted? {
      RestartIsConsistent(s.k, e.hasMonitor);
    } else if e.Begin? || e.Bookkeep? {
    } else {
      assert Sensible(s.calls[e.id]);
    }
    hide Act;
    hide Restart;
  }

  /** In a coherent engine the requirements for arming hold exactly if it is confirmed. */
  lemma ReadyIffConfirmed(k: Kinetic)
    requires Coherent(k)
    ensures Ready(k.live) <==> Confirmed(k)
  {
  }

  lemma NextStaysCoherent(s: State, e: Section)
    requires AllCoherent(s) && May(s, e)
    ensures AllCoherent(Next(s, e))
  {
    EngineStaysCoherent(s, e);
    ReadyIffConfirmed(s.k);
    hide Engine;
    hide Coherent;
    hide Confirmed;
    hide Ready;
  }

  lemma {:induction false} ThroughStaysCoherent(s: State, sections: seq<Section>)
    requires AllCoherent(s) && Through(s, sections).Some?
    ensures AllCoherent(Through(s, sections).value)
    decreases |sections|
  {
    hide AllCoherent;
    hide May;
    hide Next;
    if sections != [] {
      NextStaysCoherent(s, sections[0]);
      ThroughStaysCoherent(Next(s, sections[0]), sections[1..]);
    }
  }

  lemma StartIsCoherent(d: Disk, hasMonitor: bool)
    ensures AllCoherent(Started(d, hasMonitor)) && Consistent(Started(d, hasMonitor).k)
  {
    EveryRunIsConsistent(d, hasMonitor, []);
  }

  /**
   In every schedule: effective arming implies intent, the policies in memory and monitor
   are valid, a verified state is the firewall's last answer, and every call that arms
   decided to in a confirmed engine.
   */
  lemma EveryScheduleIsCoherent(d: Disk, hasMonitor: bool, sections: seq<Section>)
    requires Through(Started(d, hasMonitor), sections).Some?
    ensures AllCoherent(Through(Started(d, hasMonitor), sections).value)
  {
    hide AllCoherent;
    StartIsCoherent(d, hasMonitor);
    ThroughStaysCoherent(Started(d, hasMonitor), sections);
  }

  /**
   At every commit of an arming call: it was decided in a confirmed engine, and the engine it
   arms is confirmed if and only if the requirements hold at the commit itself.
   */
  lemma CommitConfirmedIff(d: Disk, hasMonitor: bool, sections: seq<Section>, id: nat)
    requires Through(Started(d, hasMonitor), sections).Some?
    requires var s := Through(Started(d, hasMonitor), sections).value;
      May(s, Commit(id, true)) && s.calls[id].purpose.ToArm?
    ensures var s := Through(Started(d, hasMonitor), sections).value;
      && Next(s, Commit(id, true)).k.armed && Confirmed(s.calls[id].seen)
      && (Confirmed(Next(s, Commit(id, true)).k) <==> Ready(s.k.live))
  {
    hide Through;
    EveryScheduleIsCoherent(d, hasMonitor, sections);
    var s := Through(Started(d, hasMonitor), sections).value;
    ReadyIffConfirmed(s.k);
  }

  // ---------------------------------------------------------------- when file, memory and monitor agree

  /** The last of each: successful write, committed intent, policy set in memory, policy given to the monitor. */
  datatype Trace = Trace(file: Disk, intent: bool, policy: Config, monitor: Option<Config>)

  /** What a section adds to the trace, from the section alone. */
  function Traced(t: Trace, e: Section): Trace {
    match e
    case WriteFile(_, wanted, policy, _) => if Succeeds(e) then t.(file := Stored(wanted, policy)) else t
    case Commit(_, wanted) => t.(intent := wanted)
    case SetPolicy(_, policy) => t.(policy := policy)
    case Configure(_, policy) => t.(monitor := Some(policy))
    case Restarted(hasMonitor) =>
      Trace(t.file, LoadedIntent(t.file), LoadedConfig(t.file), if hasMonitor then Some(LoadedConfig(t.file)) else None)
    case _ => t
  }

  function TraceOf(t: Trace, sections: seq<Section>): Trace
    decreases |sections|
  {
    if sections == [] then t else TraceOf(Traced(t, sections[0]), sections[1..])
  }

  function TraceStart(d: Disk, hasMonitor: bool): Trace {
    Trace(d, LoadedIntent(d), LoadedConfig(d), if hasMonitor then Some(LoadedConfig(d)) else None)
  }

  predicate Shows(k: Kinetic, t: Trace) {
    k.disk == t.file && k.desired == t.intent && k.config == t.policy && k.monitor == t.monitor
  }

  lemma NextShows(s: State, e: Section, t: Trace)
    requires May(s, e) && Shows(s.k, t)
    ensures Shows(Next(s, e).k, Traced(t, e))
  {
  }

  lemma {:induction false} ThroughShows(s: State, sections: seq<Section>, t: Trace)
    requires Shows(s.k, t) && Through(s, sections).Some?
    ensures Shows(Through(s, sections).value.k, TraceOf(t, sections))
    decreases |sections|
  {
    hide Shows;
    hide May;
    hide Next;
    hide Traced;
    if sections != [] {
      NextShows(s, sections[0], t);
      ThroughShows(Next(s, sections[0]), sections[1..], Traced(t, sections[0]));
    }
  }

  /**
   After every schedule, from the sections alone: the intent in memory is backed by the file if
   and only if the last commit was a disarm or the last successful write an armed one; a restart
   keeps the intent if and only if the two agree; the file holds the policy in memory if and only
   if the last successful write carried the policy set last; and the monitor runs it if and only
   if it was given that policy last.
   */
  lemma AgreementIff(d: Disk, hasMonitor: bool, sections: seq<Section>, again: bool)
    requires Through(Started(d, hasMonitor), sections).Some?
    ensures var k := Through(Started(d, hasMonitor), sections).value.k;
      var t := TraceOf(TraceStart(d, hasMonitor), sections);
      && ((k.desired ==> LoadedIntent(k.disk)) <==> !t.intent || LoadedIntent(t.file))
      && (Restart(k, again).desired == k.desired <==> LoadedIntent(t.file) == t.intent)
      && (LoadedConfig(k.disk) == k.config <==> LoadedConfig(t.file) == t.policy)
      && (k.monitor == Some(k.config) <==> t.monitor == Some(t.policy))
  {
    hide Through;
    hide TraceOf;
    assert Shows(Started(d, hasMonitor).k, TraceStart(d, hasMonitor));
    ThroughShows(Started(d, hasMonitor), sections, TraceStart(d, hasMonitor));
  }

  // ---------------------------------------------------------------- calls that do not overlap

  /** While a call is under way, only its own sections run, beside the environment and a restart. */
  predicate Alone(s: State, e: Section) {
    match e
    case Begin(_, _) => s.calls == map[]
    case _ => true
  }

  /** The only call is as far ahead of the rest of the engine as its stage says. */
  ghost predicate OneCall(s: State) {
    && (s.calls == map[] ==> Consistent(s.k))
    && (forall id :: id in s.calls ==> s.calls == map[id := s.calls[id]] && Midway(s.k, s.calls[id]))
  }

  predicate Midway(k: Kinetic, c: Call) {
    match c.purpose
    case ToConfigure(next, previous, wanted) =>
      && k.desired == wanted && next.Valid()
      && (match c.stage
          case AtStart => Consistent(k) && k.config == previous && k.monitor.Some?
          case InMonitor => Consistent(k.(monitor := Some(previous))) && k.monitor == Some(next) && k.config == previous
          case Undone => Consistent(k.(config := previous)) && k.monitor == Some(previous)
          case Carrying(policy) => policy == next && MidChange(k, next, previous)
          case _ => MidChange(k, next, previous))
    case _ =>
      match c.stage
      case AtStart => Consistent(k)
      case Carrying(policy) => Consistent(k) && policy == k.config
      case OnDisk(ok) =>
        if c.purpose.ToDisarm? then (if ok then Consistent(k.(desired := false, armed := false)) else Consistent(k))
        else ok && Consistent(k.(desired := true))
      case _ => false
  }

  /** The new policy is in memory and monitor and the old one in the file. */
  predicate MidChange(k: Kinetic, next: Config, previous: Config) {
    Consistent(k.(monitor := Some(previous), config := previous)) && k.monitor == Some(next) && k.config == next
  }

  /** No call begins while another is under way. */
  predicate NoOverlap(s: State, sections: seq<Section>)
    decreases |sections|
  {
    sections != [] && May(s, sections[0]) ==> Alone(s, sections[0]) && NoOverlap(Next(s, sections[0]), sections[1..])
  }

  // ---------------------------------------------------------------- sections that are not the call's own

  /** Only live facts or the health loop's own notes differ, and nothing is armed that was not. */
  predicate Aside(k: Kinetic, k': Kinetic) {
    && k' == k.(armed := k'.armed, lostSince := k'.lostSince, rearm := k'.rearm, nextAttempt := k'.nextAttempt,
                live := k'.live, firewall := k'.firewall)
    && (k'.armed ==> k.armed) && FirewallTrue(k'.live.enforcement, k'.firewall)
  }

  lemma AsideConsistent(k: Kinetic, k': Kinetic)
    requires Consistent(k) && Aside(k, k')
    ensures Consistent(k')
  {
  }

  lemma AsideMidway(k: Kinetic, k': Kinetic, c: Call)
    requires Midway(k, c) && Aside(k, k')
    ensures Midway(k', c)
  {
    hide FirewallTrue;
  }

  lemma SectionAside(s: State, e: Section)
    requires May(s, e) && FirewallTrue(s.k.live.enforcement, s.k.firewall) && (e.Environment? || e.Bookkeep?)
    ensures Aside(s.k, Engine(s, e))
  {
    if e.Environment? {
      EnvironmentFrame(s.k, e.action);
    }
    hide Act;
  }

  // ---------------------------------------------------------------- the call's own sections

  lemma OwnChange(s: State, e: Section, c: Call)
    requires May(s, e) && !e.Begin? && !e.Bookkeep? && !e.Environment? && !e.Restarted? && s.calls[e.id] == c
    requires Midway(s.k, c) && c.purpose.ToConfigure?
    ensures Advanced(c, e).None? ==> Consistent(Engine(s, e))
    ensures Advanced(c, e).Some? ==> Midway(Engine(s, e), c.(stage := Advanced(c, e).value))
  {
    hide FirewallTrue;
  }

  lemma OwnIntent(s: State, e: Section, c: Call)
    requires May(s, e) && !e.Begin? && !e.Bookkeep? && !e.Environment? && !e.Restarted? && s.calls[e.id] == c
    requires Midway(s.k, c) && !c.purpose.ToConfigure? && Sensible(c)
    ensures Advanced(c, e).None? ==> Consistent(Engine(s, e))
    ensures Advanced(c, e).Some? ==> Midway(Engine(s, e), c.(stage := Advanced(c, e).value))
  {
    hide FirewallTrue;
    hide Confirmed;
  }

  lemma BeginMidway(k: Kinetic, p: Purpose)
    requires Consistent(k) && MayBegin(k, p)
    ensures Midway(k, Call(p, AtStart, k))
  {
    hide FirewallTrue;
    hide Ready;
  }

  lemma NextKeepsOneCall(s: State, e: Section)
    requires OneCall(s) && AllCoherent(s) && May(s, e) && Alone(s, e)
    ensures OneCall(Next(s, e))
  {
    hide Consistent;
    hide Sensible;
    hide MayBegin;
    hide MayContinue;
    if e.Restarted? {
      RestartIsConsistent(s.k, e.hasMonitor);
    } else if e.Begin? {
      BeginMidway(s.k, e.purpose);
    } else if e.Bookkeep? || e.Environment? {
      SectionAside(s, e);
      if s.calls == map[] {
        AsideConsistent(s.k, Engine(s, e));
      }
      forall id | id in s.calls ensures Midway(Engine(s, e), s.calls[id]) {
        AsideMidway(s.k, Engine(s, e), s.calls[id]);
      }
    } else {
      var c := s.calls[e.id];
      if c.purpose.ToConfigure? {
        OwnChange(s, e, c);
      } else {
        OwnIntent(s, e, c);
      }
    }
    hide Engine;
    hide Midway;
    hide Advanced;
  }

  lemma {:induction false} ThroughKeepsOneCall(s: State, sections: seq<Section>)
    requires OneCall(s) && AllCoherent(s) && Through(s, sections).Some? && NoOverlap(s, sections)
    ensures OneCall(Through(s, sections).value)
    decreases |sections|
  {
    hide OneCall;
    hide AllCoherent;
    hide May;
    hide Next;
    hide Alone;
    if sections != [] {
      NextKeepsOneCall(s, sections[0]);
      NextStaysCoherent(s, sections[0]);
      ThroughKeepsOneCall(Next(s, sections[0]), sections[1..]);
    }
  }

  /** If no two calls overlap, then whenever none is under way the engine is as consistent as after whole calls. */
  lemma AloneIsConsistent(d: Disk, hasMonitor: bool, sections: seq<Section>)
    requires Through(Started(d, hasMonitor), sections).Some? && NoOverlap(Started(d, hasMonitor), sections)
    requires Through(Started(d, hasMonitor), sections).value.calls == map[]
    ensures Consistent(Through(Started(d, hasMonitor), sections).value.k)
  {
    hide AllCoherent;
    hide Consistent;
    hide Through;
    StartIsCoherent(d, hasMonitor);
    ThroughKeepsOneCall(Started(d, hasMonitor), sections);
  }
}
