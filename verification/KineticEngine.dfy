/**
 The engine's Kinetic controller: the fields its methods update, with the outcome
 of each state-file write and firewall call passed in. Every method is proved
 against the transition functions of `KineticArming`.
 */
module KineticEngine {
  import opened Wrappers
  import opened KineticConfig
  import opened KineticArming

  class Controller {
    var config: Config
    var desired: bool
    var armed: bool
    var armedAt: int
    var lostSince: int
    var rearm: Rearm
    var nextAttempt: int
    var monitor: Option<Config>
    var disk: Disk
    var live: Live
    ghost var firewall: Option<Gen>
    ghost var disarmUnwritten: bool

    ghost function State(): Kinetic
      reads this
    {
      Kinetic(config, desired, armed, armedAt, lostSince, rearm, nextAttempt, monitor, disk, live, firewall,
        disarmUnwritten)
    }

    /** A process start: loads the state file and configures the monitor, if there is one. */
    constructor (file: Disk, hasMonitor: bool)
      ensures State() == RunFrom(file, hasMonitor, [])
      ensures !armed
    {
      config, desired, armed, armedAt, lostSince := DEFAULT_CONFIG, false, false, 0, 0;
      rearm, nextAttempt, disk, live := Idle, 0, file, NO_LIVE;
      firewall, disarmUnwritten := None, false;
      monitor := if hasMonitor then Some(DEFAULT_CONFIG) else None;
      new;
      if file.Stored? && file.config.Valid() {
        config, desired := file.config, file.armed;
        if desired {
          rearm := Pending;
        }
        var _ := Configure(file.config);
      }
    }

    /** Passes a policy to the monitor, which refuses an invalid one. */
    method Configure(next: Config) returns (ok: bool)
      modifies this`monitor
      ensures ok == (old(monitor).Some? && next.Valid())
      ensures monitor == if ok then Some(next) else old(monitor)
    {
      ok := monitor.Some? && next.Valid();
      if ok {
        monitor := Some(next);
      }
    }

    method WriteState(wanted: bool, writeOk: bool) returns (ok: bool)
      modifies this`disk, this`disarmUnwritten
      ensures ok == Writes(old(State()), writeOk)
      ensures State() == if ok then Written(old(State()), wanted) else old(State())
    {
      var active := config;
      if active == ZERO_CONFIG {
        active := DEFAULT_CONFIG;
      }
      if !active.Valid() || !writeOk {
        return false;
      }
      disk, disarmUnwritten := Stored(wanted, active), false;
      return true;
    }

    method RecordArmingIntent(clock: int, source: Rearm, writeOk: bool) returns (ok: bool)
      modifies this
      ensures ok == Writes(old(State()), writeOk)
      ensures State() == Record(old(State()), clock, writeOk, source)
    {
      ok := WriteState(true, writeOk);
      if ok {
        armed, desired, armedAt, lostSince := true, true, clock, 0;
        nextAttempt, rearm := 0, source;
      }
    }

    method DisarmWithReason(writeOk: bool) returns (ok: bool)
      modifies this
      ensures ok == Writes(old(State()), writeOk)
      ensures State() == Disarm(old(State()), writeOk)
    {
      ok := WriteState(false, writeOk);
      armed, desired, armedAt, lostSince := false, false, 0, 0;
      rearm, nextAttempt := Idle, 0;
      if !ok {
        disarmUnwritten := LoadedIntent(disk);
      }
    }

    method DropEffectiveArming()
      modifies this`armed, this`lostSince, this`rearm
      ensures State() == Drop(old(State()))
    {
      armed, lostSince, rearm := false, 0, Pending;
    }

    method ReconcileKinetic(now: int, clock: int, writeOk: bool)
      modifies this
      ensures State() == Reconcile(old(State()), now, clock, writeOk)
    {
      var active := config;
      if active == ZERO_CONFIG {
        active := DEFAULT_CONFIG;
      }
      var blockers := EvaluateArmingRequirements(live);
      if armed {
        if active.autoDisarmSeconds > 0 && armedAt != 0 && now - armedAt >= active.AutoDisarm() {
          var _ := DisarmWithReason(writeOk);
          return;
        }
        if blockers == [] {
          lostSince := 0;
          return;
        }
        if lostSince == 0 {
          lostSince := now;
          return;
        }
        if now - lostSince < LOST_GRACE {
          return;
        }
        DropEffectiveArming();
        return;
      }
      if !desired {
        return;
      }
      if nextAttempt != 0 && now < nextAttempt {
        return;
      }
      if blockers != [] {
        rearm, nextAttempt := Pending, now + REARM_RETRY;
        return;
      }
      var ok := RecordArmingIntent(clock, ReArmed, writeOk);
      if !ok {
        rearm, nextAttempt := Pending, now + REARM_RETRY;
      }
    }

    /** The policy is installed exactly on success, and a failure leaves a consistent controller as it was. */
    method SetKineticConfig(next: Config, writeOk: bool, now: int, clock: int, writeOk2: bool) returns (ok: bool)
      modifies this
      ensures State() == SetConfig(old(State()), next, writeOk, now, clock, writeOk2)
      ensures ok ==> next.Valid() && (config == next || Effective(old(config)) == next)
      ensures Consistent(old(State())) && !ok ==> State() == old(State())
      ensures ok <==> old(monitor).Some? && next.Valid() && (next == Effective(old(config)) || writeOk)
    {
      if monitor.None? || !next.Valid() {
        return false;
      }
      var previous := config;
      if previous == ZERO_CONFIG {
        previous := DEFAULT_CONFIG;
      }
      var wanted := desired;
      if previous == next {
        return true;
      }
      var accepted := Configure(next);
      config := next;
      var written := WriteState(wanted, writeOk);
      if !written {
        var restored := Configure(previous);
        if restored {
          config := previous;
        }
        return false;
      }
      ReconcileKinetic(now, clock, writeOk2);
      return true;
    }

    method SetKineticDesiredState(want: bool, writeOk: bool, now: int, clock: int, writeOk2: bool) returns (ok: bool)
      modifies this
      ensures State() == SetDesired(old(State()), want, writeOk, now, clock, writeOk2)
      ensures ok && want ==> desired || old(armed)
      ensures old(config).Valid() && want ==>
        (ok <==> old(armed) || (writeOk && (Ready(old(live)) || old(monitor).Some?)))
      ensures old(config).Valid() && !want ==> ok == writeOk
      ensures !want ==> !armed && !desired
    {
      if !want {
        ok := DisarmWithReason(writeOk);
        return;
      }
      var blockers := EvaluateArmingRequirements(live);
      if armed {
        return true;
      }
      if blockers == [] {
        ok := RecordArmingIntent(clock, Idle, writeOk);
        return;
      }
      if monitor.None? {
        return false;
      }
      ok := WriteState(true, writeOk);
      if !ok {
        return;
      }
      desired, rearm, nextAttempt := true, Pending, now;
      ReconcileKinetic(now, clock, writeOk2);
    }

    method SetKineticArmed(want: bool, writeOk: bool, clock: int) returns (ok: bool)
      modifies this
      ensures State() == SetArmed(old(State()), want, writeOk, clock)
      ensures ok ==> armed == want
      ensures old(config).Valid() && want ==> (ok <==> old(monitor).Some? && Ready(live) && (old(armed) || writeOk))
      ensures old(config).Valid() && !want ==> (ok <==> (!old(desired) && !old(armed)) || writeOk)
      ensures !want ==> !armed
    {
      if !want {
        if !desired && !armed {
          return true;
        }
        ok := DisarmWithReason(writeOk);
        return;
      }
      if monitor.None? {
        return false;
      }
      var blockers := EvaluateArmingRequirements(live);
      if blockers != [] {
        return false;
      }
      if armed {
        return true;
      }
      ok := RecordArmingIntent(clock, Idle, writeOk);
    }

    /**
     One firewall application; `gate` says whether the policy gate was acquired, `answer` is absent
     on a failed call.
     */
    method ApplyThreatEnforcement(feed: Feed, gate: bool, answer: Option<FirewallResult>) returns (ok: bool)
      modifies this`live, this`firewall
      ensures State() == EndApply(BeginApply(old(State()), feed), feed, if gate then answer else None)
      ensures ok <==> IsVerified(live.enforcement.state)
      ensures ok <==>
        && feed.indicators > 0 && feed.feedsTotal > 0 && feed.feedsReady == feed.feedsTotal && feed.generation.Sha?
        && gate && answer.Some? && answer.value.indicators == feed.indicators
        && answer.value.generation == feed.generation && answer.value.protection == feed.protection
        && answer.value.prefixes == feed.prefixes && answer.value.rules > 0 && answer.value.shards > 0
      ensures ok ==> live.enforcement.active == feed.generation
      ensures !ok ==> live.enforcement.active == old(live.enforcement.active)
    {
      firewall := None;
      if feed.indicators <= 0 || feed.feedsTotal <= 0 || feed.feedsReady != feed.feedsTotal || !feed.generation.Sha? {
        EnforcementFailed(feed.generation);
        return false;
      }
      live := live.(enforcement := live.enforcement.(state := Applying, desired := feed.generation));
      if !gate {
        EnforcementFailed(feed.generation);
        return false;
      }
      if answer.None? || !Matches(feed, answer.value) {
        EnforcementFailed(feed.generation);
        return false;
      }
      var result := answer.value;
      firewall := Some(result.generation);
      live := live.(enforcement :=
        Enforcement(
          if result.cleanupPending then VerifiedCleanupPending else Verified, feed.generation, result.generation));
      return true;
    }

    method EnforcementFailed(generation: Gen)
      modifies this`live
      ensures live == old(live).(enforcement := old(live).enforcement.(state := Degraded, desired := generation))
    {
      live := live.(enforcement := live.enforcement.(state := Degraded, desired := generation));
    }
  }
}
