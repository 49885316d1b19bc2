/**
 Kinetic arming: the operator's persisted intent, the effective arming that live
 verification allows, and the threat-enforcement state it depends on. File writes
 and firewall applications may fail; a restart keeps only the state file.
 */
module KineticArming {
  import opened Wrappers
  import opened KineticConfig

  const REARM_RETRY := 30 * SECOND
  const LOST_GRACE := 20 * SECOND

  // ---------------------------------------------------------------- state

  /** A generation hash: absent, of the wrong length, or a SHA-256 hex string. */
  datatype Gen = NoGen | Malformed(id: nat) | Sha(id: nat)

  datatype EnforcementState = Unverified | Applying | Degraded | Verified | VerifiedCleanupPending

  datatype Enforcement = Enforcement(state: EnforcementState, desired: Gen, active: Gen)

  /** What the threat feeds report. */
  datatype Feed = Feed(
    generation: Gen, indicators: int, feedsTotal: int, feedsReady: int, protection: nat, prefixes: int)

  /** What the firewall controller reports after applying a generation. */
  datatype FirewallResult = FirewallResult(
    indicators: int, generation: Gen, rules: int, shards: int, cleanupPending: bool, protection: nat, prefixes: int)

  /** The live facts that gate arming. */
  datatype Live = Live(wfp: bool, network: bool, enforcement: Enforcement, feed: Feed)

  /** The state file. */
  datatype Disk = Absent | Unusable | Stored(armed: bool, config: Config)

  datatype Rearm = Idle | Pending | ReArmed

  datatype Kinetic = Kinetic(
    config: Config, desired: bool, armed: bool, armedAt: int, lostSince: int, rearm: Rearm, nextAttempt: int,
    monitor: Option<Config>, disk: Disk, live: Live,
    /**
     The generation of the controller's last answer if it was verified; none once an application is
     announced or fails.
     */
    firewall: Option<Gen>,
    /** A disarm of an intent that the file holds could not be written, and nothing was written since. */
    disarmUnwritten: bool)

  const NO_LIVE := Live(false, false, Enforcement(Unverified, NoGen, NoGen), Feed(NoGen, 0, 0, 0, 0, 0))

  function Effective(c: Config): Config {
    if c == ZERO_CONFIG then DEFAULT_CONFIG else c
  }

  // ---------------------------------------------------------------- requirements

  predicate IsVerified(s: EnforcementState) {
    s == Verified || s == VerifiedCleanupPending
  }

  /** All requirements for arming hold. */
  predicate Ready(l: Live) {
    && l.wfp && l.network && IsVerified(l.enforcement.state)
    && l.enforcement.active != NoGen
    && (l.enforcement.desired != NoGen ==> l.enforcement.active == l.enforcement.desired)
    && l.enforcement.active == l.feed.generation
    && l.feed.indicators > 0
  }

  datatype Blocker =
    | NoWfpTelemetry | NoTcpTelemetry | EnforcementNotVerified | NoActiveGeneration
    | ActiveNotDesired | ActiveNotFeed | NoIndicators

  /** Lists a requirement that is not met. */
  function Unmet(blockers: seq<Blocker>, unmet: bool, b: Blocker): (r: seq<Blocker>)
    ensures r == [] <==> blockers == [] && !unmet
    ensures forall x :: x in r <==> x in blockers || (unmet && x == b)
  {
    if unmet then blockers + [b] else blockers
  }

  /** Each unmet requirement is listed and no other; the list is empty exactly when arming is allowed. */
  method EvaluateArmingRequirements(l: Live) returns (blockers: seq<Blocker>)
    ensures blockers == [] <==> Ready(l)
    ensures NoWfpTelemetry in blockers <==> !l.wfp
    ensures NoTcpTelemetry in blockers <==> !l.network
    ensures EnforcementNotVerified in blockers <==>
      l.enforcement.state != Verified && l.enforcement.state != VerifiedCleanupPending
    ensures NoActiveGeneration in blockers <==> l.enforcement.active == NoGen
    ensures ActiveNotDesired in blockers <==>
      l.enforcement.desired != NoGen && l.enforcement.active != NoGen && l.enforcement.active != l.enforcement.desired
    ensures ActiveNotFeed in blockers <==> l.enforcement.active != NoGen && l.enforcement.active != l.feed.generation
    ensures NoIndicators in blockers <==> l.feed.indicators <= 0
  {
    hide Unmet;
    var active, wanted := l.enforcement.active, l.enforcement.desired;
    blockers := Unmet([], !l.wfp, NoWfpTelemetry);
    blockers := Unmet(blockers, !l.network, NoTcpTelemetry);
    blockers := Unmet(blockers, !IsVerified(l.enforcement.state), EnforcementNotVerified);
    blockers := Unmet(blockers, active == NoGen, NoActiveGeneration);
    blockers := Unmet(blockers, wanted != NoGen && active != NoGen && active != wanted, ActiveNotDesired);
    blockers := Unmet(blockers, active != NoGen && active != l.feed.generation, ActiveNotFeed);
    blockers := Unmet(blockers, l.feed.indicators <= 0, NoIndicators);
  }

  // ---------------------------------------------------------------- transitions

  predicate Writes(k: Kinetic, ok: bool) {
    ok && Effective(k.config).Valid()
  }

  function Written(k: Kinetic, desired: bool): Kinetic {
    k.(disk := Stored(desired, Effective(k.config)), disarmUnwritten := false)
  }

  /** Arms after persisting the intent; nothing changes if that fails. */
  function Record(k: Kinetic, clock: int, ok: bool, rearm: Rearm): Kinetic {
    if !Writes(k, ok) then k
    else
      Written(k, true).(
        armed := true, desired := true, armedAt := clock, lostSince := 0, nextAttempt := 0, rearm := rearm)
  }

  /** Disarms in memory whether or not the intent can be withdrawn on disk. */
  function Disarm(k: Kinetic, ok: bool): Kinetic {
    (if Writes(k, ok) then Written(k, false) else k.(disarmUnwritten := LoadedIntent(k.disk)))
      .(armed := false, desired := false, armedAt := 0, lostSince := 0, rearm := Idle, nextAttempt := 0)
  }

  function Drop(k: Kinetic): Kinetic {
    k.(armed := false, lostSince := 0, rearm := Pending)
  }

  predicate AutoDisarmDue(k: Kinetic, now: int) {
    var c := Effective(k.config);
    c.autoDisarmSeconds > 0 && k.armedAt != 0 && now - k.armedAt >= c.AutoDisarm()
  }

  /** One pass of the health loop at `now`; an arming it performs is stamped `clock`. */
  function Reconcile(k: Kinetic, now: int, clock: int, ok: bool): Kinetic {
    if k.armed then
      if AutoDisarmDue(k, now) then Disarm(k, ok)
      else if Ready(k.live) then k.(lostSince := 0)
      else if k.lostSince == 0 then k.(lostSince := now)
      else if now - k.lostSince < LOST_GRACE then k
      else Drop(k)
    else if !k.desired then k
    else if k.nextAttempt != 0 && now < k.nextAttempt then k
    else if !Ready(k.live) then k.(rearm := Pending, nextAttempt := now + REARM_RETRY)
    else if Writes(k, ok) then Record(k, clock, ok, ReArmed)
    else k.(rearm := Pending, nextAttempt := now + REARM_RETRY)
  }

  /** A new observation policy; a failed write restores the previous one. */
  function SetConfig(k: Kinetic, config: Config, ok: bool, now: int, clock: int, ok2: bool): Kinetic {
    var previous := Effective(k.config);
    if k.monitor.None? || !config.Valid() || previous == config then k
    else
      var k' := k.(monitor := Some(config), config := config);
      if Writes(k', ok) then Reconcile(Written(k', k.desired), now, clock, ok2)
      else if previous.Valid() then k'.(monitor := Some(previous), config := previous)
      else k'
  }

  function SetDesired(k: Kinetic, want: bool, ok: bool, now: int, clock: int, ok2: bool): Kinetic {
    if !want then Disarm(k, ok)
    else if k.armed then k
    else if Ready(k.live) then Record(k, clock, ok, Idle)
    else if k.monitor.None? || !Writes(k, ok) then k
    else Reconcile(Written(k, true).(desired := true, rearm := Pending, nextAttempt := now), now, clock, ok2)
  }

  function SetArmed(k: Kinetic, want: bool, ok: bool, clock: int): Kinetic {
    if !want then (if !k.desired && !k.armed then k else Disarm(k, ok))
    else if k.monitor.None? || !Ready(k.live) || k.armed then k
    else Record(k, clock, ok, Idle)
  }

  function LoadedConfig(d: Disk): Config {
    if d.Stored? && d.config.Valid() then d.config else DEFAULT_CONFIG
  }

  function LoadedIntent(d: Disk): bool {
    d.Stored? && d.config.Valid() && d.armed
  }

  /** A new process: only the state file survives, and nothing is armed or verified. */
  function Restart(k: Kinetic, hasMonitor: bool): Kinetic {
    Kinetic(LoadedConfig(k.disk), LoadedIntent(k.disk), false, 0, 0,
            if LoadedIntent(k.disk) then Pending else Idle, 0,
            if hasMonitor then Some(LoadedConfig(k.disk)) else None,
            k.disk, NO_LIVE, None, false)
  }

  predicate Usable(f: Feed) {
    f.indicators > 0 && f.feedsTotal > 0 && f.feedsReady == f.feedsTotal && f.generation.Sha?
  }

  /** Announces an application; from here on the firewall is no longer known to be verified. */
  function BeginApply(k: Kinetic, f: Feed): Kinetic {
    var e := k.live.enforcement;
    k.(firewall := None,
       live := k.live.(enforcement :=
         if Usable(f) then e.(state := Applying, desired := f.generation)
         else e.(state := Degraded, desired := f.generation)))
  }

  predicate Matches(f: Feed, r: FirewallResult) {
    && r.indicators == f.indicators && r.generation == f.generation && r.protection == f.protection
    && r.prefixes == f.prefixes && r.rules > 0 && r.shards > 0
  }

  /** The controller's answer, absent if the gate or the call failed. */
  function EndApply(k: Kinetic, f: Feed, r: Option<FirewallResult>): Kinetic {
    if !Usable(f) then k
    else if r.Some? && Matches(f, r.value) then
      k.(firewall := Some(r.value.generation),
         live := k.live.(enforcement :=
           Enforcement(
             if r.value.cleanupPending then VerifiedCleanupPending else Verified,
             f.generation, r.value.generation)))
    else
      k.(firewall := None,
         live := k.live.(enforcement := k.live.enforcement.(state := Degraded, desired := f.generation)))
  }

  // ---------------------------------------------------------------- runs

  datatype Action =
    | DoReconcile(now: int, clock: int, ok: bool)
    | DoSetConfig(config: Config, ok: bool, now: int, clock: int, ok2: bool)
    | DoSetDesired(want: bool, ok: bool, now: int, clock: int, ok2: bool)
    | DoSetArmed(want: bool, ok: bool, clock: int)
    | DoTelemetry(wfp: bool, network: bool)
    | DoFeed(feed: Feed)
    | DoBeginApply(feed: Feed)
    | DoEndApply(feed: Feed, result: Option<FirewallResult>)
    | DoRestart(hasMonitor: bool)

  /** Clock readings of an action are set and in order. */
  predicate Timed(a: Action) {
    match a
    case DoReconcile(now, clock, _) => 0 < now <= clock
    case DoSetConfig(_, _, now, clock, _) => 0 < now <= clock
    case DoSetDesired(_, _, now, clock, _) => 0 < now <= clock
    case DoSetArmed(_, _, clock) => 0 < clock
    case _ => true
  }

  function Act(k: Kinetic, a: Action): Kinetic {
    match a
    case DoReconcile(now, clock, ok) => Reconcile(k, now, clock, ok)
    case DoSetConfig(config, ok, now, clock, ok2) => SetConfig(k, config, ok, now, clock, ok2)
    case DoSetDesired(want, ok, now, clock, ok2) => SetDesired(k, want, ok, now, clock, ok2)
    case DoSetArmed(want, ok, clock) => SetArmed(k, want, ok, clock)
    case DoTelemetry(wfp, network) => k.(live := k.live.(wfp := wfp, network := network))
    case DoFeed(feed) => k.(live := k.live.(feed := feed))
    case DoBeginApply(feed) => BeginApply(k, feed)
    case DoEndApply(feed, result) => EndApply(k, feed, result)
    case DoRestart(hasMonitor) => Restart(k, hasMonitor)
  }

  /** The engine after a run of actions, first started over whatever state file is there. */
  function RunFrom(d: Disk, hasMonitor: bool, actions: seq<Action>): Kinetic {
    if actions == [] then
      Restart(Kinetic(DEFAULT_CONFIG, false, false, 0, 0, Idle, 0, None, d, NO_LIVE, None, false), hasMonitor)
    else Act(RunFrom(d, hasMonitor, actions[..|actions| - 1]), actions[|actions| - 1])
  }

  /** What every run keeps. */
  predicate Consistent(k: Kinetic) {
    && (k.armed ==> k.desired && k.armedAt > 0)
    && (k.desired ==> LoadedIntent(k.disk))
    && k.config.Valid() && LoadedConfig(k.disk) == k.config
    && (k.monitor.Some? ==> k.monitor.value == k.config)
    && (k.disarmUnwritten <==> LoadedIntent(k.disk) && !k.desired)
    && FirewallTrue(k.live.enforcement, k.firewall)
  }

  /** The enforcement state says verified exactly while the controller's last answer stands, and names it. */
  predicate FirewallTrue(e: Enforcement, firewall: Option<Gen>) {
    && (IsVerified(e.state) <==> firewall.Some?)
    && (IsVerified(e.state) ==> e.active.Sha? && e.active == e.desired && firewall == Some(e.active))
  }

  lemma ReconcileKeeps(k: Kinetic, now: int, clock: int, ok: bool)
    requires Consistent(k) && 0 < now <= clock
    ensures Consistent(Reconcile(k, now, clock, ok))
  {
  }

  lemma ActKeeps(k: Kinetic, a: Action)
    requires Consistent(k) && Timed(a)
    ensures Consistent(Act(k, a))
  {
    match a
    case DoReconcile(now, clock, ok) =>
      hide Reconcile;
      ReconcileKeeps(k, now, clock, ok);
    case DoSetConfig(config, ok, now, clock, ok2) =>
      hide SetConfig;
      SetConfigKeeps(k, config, ok, now, clock, ok2);
    case DoSetDesired(want, ok, now, clock, ok2) =>
      hide SetDesired;
      SetDesiredKeeps(k, want, ok, now, clock, ok2);
    case DoSetArmed(want, ok, clock) =>
      hide FirewallTrue;
    case _ =>
  }

  lemma SetConfigKeeps(k: Kinetic, config: Config, ok: bool, now: int, clock: int, ok2: bool)
    requires Consistent(k) && 0 < now <= clock
    ensures Consistent(SetConfig(k, config, ok, now, clock, ok2))
  {
    hide FirewallTrue;
    hide Reconcile;
    var k' := k.(monitor := Some(config), config := config);
    if config.Valid() && Writes(k', ok) && k.monitor.Some? {
      ReconcileKeeps(Written(k', k.desired), now, clock, ok2);
    }
  }

  lemma SetDesiredKeeps(k: Kinetic, want: bool, ok: bool, now: int, clock: int, ok2: bool)
    requires Consistent(k) && 0 < now <= clock
    ensures Consistent(SetDesired(k, want, ok, now, clock, ok2))
  {
    hide FirewallTrue;
    hide Reconcile;
    if Writes(k, ok) {
      ReconcileKeeps(Written(k, true).(desired := true, rearm := Pending, nextAttempt := now), now, clock, ok2);
    }
  }

  /**
   In every run of whole calls, with any pattern of failed writes and applications: effective
   arming implies intent, intent implies that the file says armed, the monitor
   runs the policy, and a verified state is the firewall's own last answer.
   */
  lemma {:induction false} EveryRunIsConsistent(d: Disk, hasMonitor: bool, actions: seq<Action>)
    requires forall a :: a in actions ==> Timed(a)
    ensures Consistent(RunFrom(d, hasMonitor, actions))
  {
    hide Act;
    if actions != [] {
      var before := actions[..|actions| - 1];
      EveryRunIsConsistent(d, hasMonitor, before);
      ActKeeps(RunFrom(d, hasMonitor, before), actions[|actions| - 1]);
    }
  }

  /**
   What a restart makes of `k`: disarmed, same policy, and the same intent if and only
   if no disarm is unwritten.
   */
  ghost predicate SurvivesRestart(k: Kinetic, r: Kinetic) {
    && !r.armed && r.config == k.config && r.disk == k.disk
    && (r.desired == k.desired <==> !k.disarmUnwritten)
    && (k.disarmUnwritten ==> r.desired && !k.desired && !k.armed)
  }

  lemma RestartOfConsistent(k: Kinetic, hasMonitor: bool)
    requires Consistent(k)
    ensures SurvivesRestart(k, Restart(k, hasMonitor))
  {
  }

  /** A restart at any point of any run. */
  lemma RestartKeepsIntent(d: Disk, hasMonitor: bool, actions: seq<Action>, again: bool)
    requires forall a :: a in actions ==> Timed(a)
    ensures SurvivesRestart(RunFrom(d, hasMonitor, actions), Restart(RunFrom(d, hasMonitor, actions), again))
  {
    hide SurvivesRestart;
    hide Restart;
    hide Consistent;
    EveryRunIsConsistent(d, hasMonitor, actions);
    hide RunFrom;
    RestartOfConsistent(RunFrom(d, hasMonitor, actions), again);
  }

  /** The action disarms. */
  predicate Disarms(k: Kinetic, a: Action) {
    match a
    case DoReconcile(now, _, _) => k.armed && AutoDisarmDue(k, now)
    case DoSetConfig(config, ok, now, _, _) =>
      && k.monitor.Some? && config.Valid() && config != k.config && ok
      && k.armed && AutoDisarmDue(k.(config := config), now)
    case DoSetDesired(want, _, _, _, _) => !want
    case DoSetArmed(want, _, _) => !want && (k.desired || k.armed)
    case _ => false
  }

  /** The write that goes with a disarm succeeds. */
  predicate DisarmWritten(a: Action) {
    match a
    case DoReconcile(_, _, ok) => ok
    case DoSetConfig(_, _, _, _, ok2) => ok2
    case DoSetDesired(_, ok, _, _, _) => ok
    case DoSetArmed(_, ok, _) => ok
    case _ => true
  }

  /** A restart starts to disagree with the operator at exactly the disarms of a stored intent whose write fails. */
  lemma UnwrittenIffDisarmFailed(k: Kinetic, a: Action)
    requires Consistent(k) && Timed(a) && !k.disarmUnwritten
    ensures Act(k, a).disarmUnwritten <==> k.desired && Disarms(k, a) && !DisarmWritten(a)
  {
    match a
    case DoSetConfig(config, ok, now, clock, ok2) =>
      assert Effective(k.config) == k.config;
    case _ =>
  }

  // ---------------------------------------------------------------- arming needs live verification

  /** Both sensors are live and the firewall's last verified answer is the feed's current generation. */
  ghost predicate Confirmed(k: Kinetic) {
    && k.live.wfp && k.live.network && k.live.feed.indicators > 0
    && k.live.feed.generation.Sha? && k.firewall == Some(k.live.feed.generation)
  }

  lemma ArmedOnlyWhenConfirmed(k: Kinetic, a: Action)
    requires Consistent(k) && !k.armed && Act(k, a).armed
    ensures Confirmed(k)
  {
    assert Ready(k.live);
  }

  /** In runs of whole calls every step into armed happens in a confirmed state. */
  lemma ArmingIsVerified(d: Disk, hasMonitor: bool, actions: seq<Action>, a: Action)
    requires forall x :: x in actions ==> Timed(x)
    requires !RunFrom(d, hasMonitor, actions).armed && Act(RunFrom(d, hasMonitor, actions), a).armed
    ensures Confirmed(RunFrom(d, hasMonitor, actions))
  {
    hide Act;
    hide Consistent;
    hide Confirmed;
    EveryRunIsConsistent(d, hasMonitor, actions);
    hide RunFrom;
    ArmedOnlyWhenConfirmed(RunFrom(d, hasMonitor, actions), a);
  }

  /** A reconciliation that finds `live` and runs at `now`. */
  datatype Pass = Pass(live: Live, now: int, clock: int, ok: bool)

  function Passes(k: Kinetic, passes: seq<Pass>): Kinetic {
    if passes == [] then k
    else
      var p := passes[|passes| - 1];
      Reconcile(Passes(k, passes[..|passes| - 1]).(live := p.live), p.now, p.clock, p.ok)
  }

  ghost predicate NotReadyInOrder(passes: seq<Pass>) {
    && (forall i :: 0 <= i < |passes| ==> !Ready(passes[i].live) && passes[i].now > 0)
    && (forall i, j :: 0 <= i < j < |passes| ==> passes[i].now <= passes[j].now)
  }

  /** While still armed, the loss was noticed no later than the first pass. */
  lemma {:induction false} LossIsNoticed(k: Kinetic, passes: seq<Pass>)
    requires passes != [] && NotReadyInOrder(passes) && 0 <= k.lostSince <= passes[0].now
    ensures var r := Passes(k, passes);
      (r.armed ==> 0 < r.lostSince <= passes[0].now) && (!r.armed ==> 0 <= r.lostSince)
    ensures !k.armed ==> !Passes(k, passes).armed
  {
    var before := passes[..|passes| - 1];
    if before == [] {
      assert Passes(k, before) == k;
    } else {
      assert before[0] == passes[0];
      LossIsNoticed(k, before);
    }
  }

  lemma SpanDisarms(k: Kinetic, passes: seq<Pass>)
    requires passes != [] && NotReadyInOrder(passes) && 0 <= k.lostSince <= passes[0].now
    requires passes[|passes| - 1].now - passes[0].now >= LOST_GRACE
    ensures !Passes(k, passes).armed
  {
    var before := passes[..|passes| - 1];
    assert before != [] && before[0] == passes[0];
    LossIsNoticed(k, before);
  }

  /** The reconciliation inside an action, if any, runs no later than `t`. */
  predicate NoLaterThan(a: Action, t: int) {
    match a
    case DoReconcile(now, _, _) => now <= t
    case DoSetConfig(_, _, now, _, _) => now <= t
    case DoSetDesired(_, _, now, _, _) => now <= t
    case _ => true
  }

  lemma ActLostSince(k: Kinetic, a: Action, t: int)
    requires 0 <= k.lostSince <= t && Timed(a) && NoLaterThan(a, t)
    ensures 0 <= Act(k, a).lostSince <= t
  {
  }

  lemma {:induction false} LostSinceIsPast(d: Disk, hasMonitor: bool, actions: seq<Action>, t: int)
    requires t >= 0 && forall a :: a in actions ==> Timed(a) && NoLaterThan(a, t)
    ensures 0 <= RunFrom(d, hasMonitor, actions).lostSince <= t
  {
    hide Act;
    if actions != [] {
      var before := actions[..|actions| - 1];
      LostSinceIsPast(d, hasMonitor, before, t);
      ActLostSince(RunFrom(d, hasMonitor, before), actions[|actions| - 1], t);
    }
  }

  /** After any run, a sequence of not-ready reconciliations that spans the grace period ends disarmed. */
  lemma LostRequirementsDisarm(d: Disk, hasMonitor: bool, actions: seq<Action>, passes: seq<Pass>)
    requires passes != [] && NotReadyInOrder(passes)
    requires passes[|passes| - 1].now - passes[0].now >= LOST_GRACE
    requires forall a :: a in actions ==> Timed(a) && NoLaterThan(a, passes[0].now)
    ensures !Passes(RunFrom(d, hasMonitor, actions), passes).armed
  {
    LostSinceIsPast(d, hasMonitor, actions, passes[0].now);
    hide RunFrom;
    SpanDisarms(RunFrom(d, hasMonitor, actions), passes);
  }

  /** An armed state is younger than a non-zero auto-disarm window. */
  ghost predicate Young(k: Kinetic, now: int) {
    k.armed && k.config.autoDisarmSeconds != AUTO_DISARM_DISABLED ==>
      k.armedAt > 0 && now - k.armedAt < k.config.AutoDisarm()
  }

  lemma ReconciledIsYoung(k: Kinetic, now: int, clock: int, ok: bool)
    requires Consistent(k) && 0 < now <= clock
    ensures Young(Reconcile(k, now, clock, ok), now)
  {
  }

  /** After any reconciliation of any run. */
  lemma ArmedIsYoung(d: Disk, hasMonitor: bool, actions: seq<Action>, now: int, clock: int, ok: bool)
    requires (forall x :: x in actions ==> Timed(x)) && 0 < now <= clock
    ensures Young(Reconcile(RunFrom(d, hasMonitor, actions), now, clock, ok), now)
  {
    hide Reconcile;
    hide Consistent;
    hide Young;
    EveryRunIsConsistent(d, hasMonitor, actions);
    hide RunFrom;
    ReconciledIsYoung(RunFrom(d, hasMonitor, actions), now, clock, ok);
  }

  lemma ActNextAttempt(k: Kinetic, a: Action, t: int)
    requires k.nextAttempt <= t + REARM_RETRY && 0 <= t && NoLaterThan(a, t)
    ensures Act(k, a).nextAttempt <= t + REARM_RETRY
  {
  }

  lemma {:induction false} RetryIsSoon(d: Disk, hasMonitor: bool, actions: seq<Action>, t: int)
    requires 0 <= t && forall a :: a in actions ==> NoLaterThan(a, t)
    ensures RunFrom(d, hasMonitor, actions).nextAttempt <= t + REARM_RETRY
  {
    hide Act;
    if actions != [] {
      var before := actions[..|actions| - 1];
      RetryIsSoon(d, hasMonitor, before, t);
      ActNextAttempt(RunFrom(d, hasMonitor, before), actions[|actions| - 1], t);
    }
  }

  lemma DuePassArms(k: Kinetic, now: int, clock: int)
    requires Consistent(k) && k.desired && !k.armed && Ready(k.live) && now >= k.nextAttempt
    ensures Reconcile(k, now, clock, true).armed && Reconcile(k, now, clock, true).disk == Stored(true, k.config)
  {
  }

  /**
   After any run, an intent is promoted by the first ready pass that comes 30 seconds after the last
   action and can write.
   */
  lemma IntentIsPromoted(d: Disk, hasMonitor: bool, actions: seq<Action>, t: int, now: int, clock: int)
    requires 0 <= t && forall a :: a in actions ==> Timed(a) && NoLaterThan(a, t)
    requires var k := RunFrom(d, hasMonitor, actions); k.desired && !k.armed && Ready(k.live)
    requires now >= t + REARM_RETRY
    ensures Reconcile(RunFrom(d, hasMonitor, actions), now, clock, true).armed
  {
    hide Act;
    hide Consistent;
    hide Reconcile;
    EveryRunIsConsistent(d, hasMonitor, actions);
    RetryIsSoon(d, hasMonitor, actions, t);
    hide RunFrom;
    DuePassArms(RunFrom(d, hasMonitor, actions), now, clock);
  }
}
