/**
 The engine's protection-mode fields and the methods that update them under the
 policy gate, each proved against the transition functions of `ProtectionMode`.
 */
module PolicyEngine {
  import opened Wrappers
  import PM = ProtectionMode
  import PO = ProtectionOutcomes

  class Engine {
    var mode: PM.Mode
    var health: PM.Health
    var verifiedAt: int
    var kernel: bool
    var file: PM.File
    ghost var lastMode: Option<PM.ModeAnswer>
    ghost var lastApp: Option<PM.AppAnswer>
    ghost var lastStatus: Option<bool>
    ghost var rollbackUnwritten: bool

    ghost function State(): PM.Policy
      reads this
    {
      PM.Policy(mode, health, verifiedAt, kernel, file, lastMode, lastApp, lastStatus, rollbackUnwritten)
    }

    constructor (stored: PM.File, ghost lastMode: Option<PM.ModeAnswer>, ghost lastApp: Option<PM.AppAnswer>)
      ensures State() == PM.Start(stored, lastMode, lastApp)
      ensures PM.Sound(State())
    {
      mode, health, verifiedAt, kernel, file := PM.Guarded, PM.Starting, 0, false, stored;
      this.lastMode, this.lastApp, lastStatus, rollbackUnwritten := lastMode, lastApp, None, false;
      new;
      if stored.Names? && PM.Supported(stored.mode) {
        mode := stored.mode;
      }
    }

    method SetProtectionHealth(state: PM.Health, clock: int)
      modifies this`health, this`verifiedAt
      ensures State() == PM.SetHealth(old(State()), state, clock)
    {
      health := state;
      if state == PM.Verified {
        verifiedAt := clock;
        return;
      }
      verifiedAt := 0;
    }

    method PersistMode(next: PM.Mode, writeOk: bool) returns (ok: bool)
      modifies this`file, this`rollbackUnwritten
      ensures ok == writeOk
      ensures State() == PM.Persist(old(State()), next, writeOk)
    {
      if writeOk {
        file, rollbackUnwritten := PM.Names(next), false;
      }
      return writeOk;
    }

    method RefreshKernelEnforcement(status: Option<bool>)
      modifies this`kernel, this`lastStatus
      ensures State() == PM.KernelStatus(old(State()), status)
    {
      if status.None? {
        return;
      }
      kernel, lastStatus := status.value, status;
    }

    /** Asks for enforcement in sovereign mode and for audit otherwise. */
    method ApplyAppControl(next: PM.Mode, answer: Option<PM.AppAnswer>) returns (ok: bool)
      modifies this`kernel, this`lastApp, this`lastStatus
      ensures (State(), ok) == PM.AppControl(old(State()), next, answer)
    {
      lastApp := answer;
      if answer.None? {
        return false;
      }
      if next == PM.Sovereign && (!answer.value.enforced || !answer.value.kernel) {
        return false;
      }
      if next != PM.Sovereign && (answer.value.enforced || answer.value.kernel) {
        return false;
      }
      kernel, lastStatus := answer.value.kernel, None;
      return true;
    }

    method ApplyVerifiedMode(next: PM.Mode, a: PM.Application) returns (ok: bool)
      modifies this`kernel, this`lastApp, this`lastStatus, this`lastMode
      ensures (State(), ok) == PM.ApplyMode(old(State()), next, a)
      ensures ok ==> PM.Protects(State(), next)
    {
      hide PM.AppVerified;
      if next == PM.Sovereign {
        ok := ApplyAppControl(next, a.app);
        if !ok {
          return;
        }
      }
      lastMode := a.mode;
      if a.mode.None? {
        return false;
      }
      var verified := a.mode.value;
      if verified.mode != next || !verified.defender || !verified.telemetry
         || (next == PM.Sovereign && !verified.defaultDeny) {
        return false;
      }
      if next != PM.Sovereign {
        ok := ApplyAppControl(next, a.app);
        return;
      }
      return true;
    }

    method RollbackMode(previous: PM.Mode, o: PM.Outcomes) returns (ok: bool)
      requires previous == mode
      modifies this`kernel, this`lastApp, this`lastStatus, this`lastMode, this`file, this`rollbackUnwritten
      ensures (State(), ok) == PM.Rollback(old(State()), o)
    {
      hide PM.ApplyMode;
      hide PM.Protects;
      var applied := ApplyVerifiedMode(previous, o.back);
      var persisted := PersistMode(previous, o.persistBack);
      RefreshKernelEnforcement(o.status);
      return applied && persisted;
    }

    /** Rolls back and reports how that went. */
    method Abandon(previous: PM.Mode, o: PM.Outcomes)
      requires previous == mode
      modifies this`kernel, this`lastApp, this`lastStatus, this`lastMode, this`file, this`rollbackUnwritten,
               this`health, this`verifiedAt
      ensures State() == PM.Abandon(old(State()), o)
    {
      hide PM.Rollback;
      var ok := RollbackMode(previous, o);
      if !ok {
        SetProtectionHealth(PM.Degraded, o.clock);
        return;
      }
      SetProtectionHealth(PM.Verified, o.clock);
    }

    method SetMode(next: PM.Mode, o: PM.Outcomes) returns (ok: bool)
      modifies this
      ensures (State(), ok) == PM.SetMode(old(State()), next, o)
      ensures ok && next != old(mode) ==> PM.Holds(State(), next) && health == PM.Verified
      ensures !ok ==> mode == old(mode)
      ensures ok <==>
        && PM.Supported(next) && o.gate && o.ledger
        && (next == old(mode) || (PO.Confirms(next, o.forward) && o.persist && o.commit))
    {
      ghost var before := State();
      ModeLemmas(before, next, o);
      PO.SetModeIff(before, next, o);
      hide PO.Confirms;
      hide PM.ApplyMode;
      hide PM.Abandon;
      hide PM.Holds;
      hide PM.Protects;
      if next != PM.Monitor && next != PM.Guarded && next != PM.Sovereign {
        return false;
      }
      if !o.gate {
        return false;
      }
      if !o.ledger {
        SetProtectionHealth(PM.Degraded, o.clock);
        return false;
      }
      var previous := mode;
      if next == previous {
        return true;
      }
      var applied := ApplyVerifiedMode(next, o.forward);
      if !applied {
        Abandon(previous, o);
        return false;
      }
      var persisted := PersistMode(next, o.persist);
      if !persisted {
        Abandon(previous, o);
        return false;
      }
      if !o.commit {
        rollbackUnwritten := !o.persistBack;
        Abandon(previous, o);
        return false;
      }
      mode := next;
      RefreshKernelEnforcement(o.status);
      SetProtectionHealth(PM.Verified, o.clock);
      return true;
    }

    /** Success leaves the mode in memory verified. */
    method ReconcilePolicy(gate: bool, ledger: bool, now: int, a: PM.Application, commit: bool, clock: int)
      returns (ok: bool)
      modifies this
      ensures (State(), ok) == PM.Reconcile(old(State()), gate, ledger, now, a, commit, clock)
      ensures PM.Sound(old(State())) && ok ==> health == PM.Verified && PM.Protects(State(), mode)
      ensures ok <==> gate && ledger && (PO.Recent(old(State()), now) || (PO.Confirms(mode, a) && commit))
      ensures !PO.Recent(old(State()), now) && ok ==> lastMode == a.mode && lastApp == a.app && verifiedAt == clock
    {
      ghost var before := State();
      PO.ReconcileIff(before, gate, ledger, now, a, commit, clock);
      hide PO.Confirms;
      if PM.Sound(before) {
        PM.ReconcileKeepsSound(before, gate, ledger, now, a, commit, clock);
      }
      hide PM.ApplyMode;
      hide PM.Protects;
      if !gate {
        SetProtectionHealth(PM.Degraded, clock);
        return false;
      }
      if !ledger {
        SetProtectionHealth(PM.Degraded, clock);
        return false;
      }
      if health == PM.Verified && now - verifiedAt < PM.COALESCE {
        return true;
      }
      var applied := ApplyVerifiedMode(mode, a);
      if !applied {
        SetProtectionHealth(PM.Degraded, clock);
        return false;
      }
      if !commit {
        SetProtectionHealth(PM.Degraded, clock);
        return false;
      }
      SetProtectionHealth(PM.Verified, clock);
      return true;
    }

    method SetApplication(gate: bool, listed: bool, answer: Option<PM.AppAnswer>, clock: int) returns (ok: bool)
      modifies this
      ensures (State(), ok) == PM.SetApplication(old(State()), gate, listed, answer, clock)
      ensures ok <==> gate && listed && PO.Fits(mode, answer)
    {
      PO.SetApplicationIff(State(), gate, listed, answer, clock);
      hide PM.AppControl;
      if !gate || !listed {
        return false;
      }
      ok := ApplyAppControl(mode, answer);
      if !ok {
        SetProtectionHealth(PM.Degraded, clock);
      }
    }

    /** One pass of the allow-list verification loop. */
    method VerifyApplications(gate: bool, intact: bool, clock: int)
      modifies this`health, this`verifiedAt
      ensures State() == if gate && intact then old(State()) else PM.AllowListUnverified(old(State()), clock)
      ensures health == if mode == PM.Sovereign && !(gate && intact) then PM.Degraded else old(health)
    {
      if gate {
        if !intact {
          if mode == PM.Sovereign {
            SetProtectionHealth(PM.Degraded, clock);
          }
        }
      } else if mode == PM.Sovereign {
        SetProtectionHealth(PM.Degraded, clock);
      }
    }
  }

  lemma ModeLemmas(p: PM.Policy, next: PM.Mode, o: PM.Outcomes)
    ensures PM.SetMode(p, next, o).1 && next != p.mode ==>
      PM.Holds(PM.SetMode(p, next, o).0, next) && PM.SetMode(p, next, o).0.health == PM.Verified
    ensures !PM.SetMode(p, next, o).1 ==> PM.SetMode(p, next, o).0.mode == p.mode
  {
    if PM.SetMode(p, next, o).1 {
      if next != p.mode {
        PM.SuccessHolds(p, next, o);
      }
    } else {
      PM.ErrorKeepsMode(p, next, o);
    }
    hide PM.SetMode;
  }
}
